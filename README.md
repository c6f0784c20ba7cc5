# Netflix content dashboard — a Dafny model

The dashboard loads the public Netflix titles table, cleans it, and lets a user narrow it with three sidebar widgets:
- a content type ("All", "Movie" or "TV Show");
- a set of countries;
- an inclusive release-year range.

From the narrowed table it draws:
- three key metrics;
- a world map of titles per country;
- a pie chart of content types;
- the top 10 countries and the top 15 genres;
- a runtime or season analysis;
- a word cloud of the descriptions.

This project models the logic behind those screens. Each part takes the form of its source file:

- `Data.dfy` covers `load_data` in data.py. It is written as methods that rewrite the table column by column, the way the source does: parse `date_added`, derive `year_added`, `dropna` on four columns, then `astype(int)`. Each method is proved against a specification function. Lemmas then show what the cleaned table is: the surviving input rows, in input order, each converted on its own. The two exception paths each give an empty table and an error message.
- `Ui.dfy` covers the pure helpers of ui.py:
  - the country-code resolver `get_iso_alpha`;
  - the sidebar's country options and year bounds;
  - the split-explode-`value_counts` aggregations with `nlargest`;
  - the map rows;
  - the duration extraction `(\d+)` and the seasons table;
  - the description corpus with its two warnings;
  - the metrics and the page.
- `Dashboard.dfy` covers `main` in dashboard.py:
  - the empty-table guard;
  - the three-stage filter, proved equal to one stable filter by a single predicate;
  - lemmas on order, idempotence, relaxation and the unrestricted selection, plus the substring behaviour of the country test.
- `Text.dfy`, `Counting.dfy` and `Seqs.dfy` give the Python and pandas primitives these files rely on:
  - `str.strip` (Python's whitespace set);
  - `needle in hay` (substring);
  - `split` and `join`;
  - the first maximal digit run;
  - code-point string order;
  - `value_counts` (tally, then count-descending);
  - `nlargest`, `sort_index` and `sorted(unique())`;
  - boolean-mask selection as a stable filter;
  - `dropna` on a column.

Two behaviours of the code are worth knowing:
- the content type is spelled "TV Show";
- the country filter tests whether a selected name is a substring of the whole comma-separated `country` cell. It does not compare whole names, so selecting "Niger" also shows titles from "Nigeria" (`Dashboard.NigerSelectsNigeria`).

## Model

| member | source | states |
|---|---|---|
| Data.Trunc | data.py:30-31 | `astype(int)` on a float truncates toward zero: the result is within one of the input, below it for non-negative inputs and above it for negative ones |
| Data.TruncWhole | data.py:31 | a float holding a whole year converts back to exactly that year |
| Data.Stage | data.py:21-22 | `date_added` becomes the parse of its stripped text (missing when the cell is missing or does not parse); `year_added` is present exactly when that parse succeeds and is the parsed date's year; the other eight columns pass through unchanged |
| Data.ParseDates | data.py:21-22 | the loop parses every row's date, row for row into a new frame |
| Data.DropIncomplete | data.py:25-27 | the loop keeps exactly the rows with rating, release year, year added and country, in their original order |
| Data.CoerceYears | data.py:30-31 | the loop converts both year columns of every kept row to integers, row for row |
| Data.LoadData | data.py:16-36 | a failed read gives an empty table and "Error loading or processing data: " plus the reason; a non-empty all-missing `date_added` column makes `.str` raise, with the same outcome; otherwise there is no error and the table is the cleaned one |
| Data.Convert | data.py:21-31 | a surviving row changes only in its date, its two integer year columns (year added = parsed year, release year truncated) and its now-present rating and country; title, type, duration, genres and description pass through |
| Data.SurvivesIffComplete | data.py:21-27 | a raw row passes `dropna` exactly when rating, release year and country are present and its date text parses after stripping |
| Data.StageThenDrop | data.py:21-27 | parsing dates then dropping incomplete rows equals parsing only the raw rows that survive |
| Data.Clean | data.py:21-31 | the cleaned table is the surviving input rows, in input order, each converted on its own |
| Data.CleanRowsComeFromSurvivors | data.py:25-27 | every row of the cleaned table is the conversion of some surviving input row |
| Data.SurvivorsReachClean | data.py:25-27 | every surviving input row appears, converted, in the cleaned table |
| Text.Strip | data.py:21 | `str.strip()` returns a slice of its input with only whitespace outside it, and with no whitespace at either end |
| Text.StripIdempotent | data.py:21 | stripping an already stripped text changes nothing |
| Text.Contains | dashboard.py:39 | Python's `c in x`: the empty name is in every cell, and a name longer than the cell is never in it |
| Text.ContainsIff | dashboard.py:39 | `c in x` holds exactly when `c` occurs at some position of `x` |
| Text.Split | ui.py:36 | `split` always yields at least one piece |
| Text.JoinSplit | ui.py:36 | joining the pieces of `split(sep)` with `sep` gives back the original text, so no character is lost or invented |
| Text.SplitPiecesAvoidSep | ui.py:36 | no piece of `split(", ")` contains the separator |
| Text.SplitAfterPlainPrefix | ui.py:36 | characters that cannot start the separator extend the first piece |
| Text.SplitTwo | ui.py:36 | two separator-free names joined by ", " split back into exactly those two names |
| Text.Join | ui.py:159 | `sep.join(parts)` is empty for no parts and otherwise starts with the first part |
| Text.JoinSnoc | ui.py:159 | joining one more part appends one separator and that part, or gives the part alone when there was nothing before |
| Text.JoinLength | ui.py:159 | the join's length is the parts' lengths plus one separator between each neighbouring pair |
| Text.JoinEmptyIff | ui.py:159-160 | a `" ".join` is empty exactly when there is nothing to join or only one empty string |
| Text.FirstDigitRun | ui.py:125 | the regex `(\d+)` finds the first maximal run of digits, or nothing exactly when the text has no digit |
| Text.DecimalRoundTrip | ui.py:125-126 | reading back the decimal rendering of a number gives the number |
| Text.LexLessTransitive | ui.py:36 | the string order `sorted` uses is transitive |
| Text.LexLessTotal | ui.py:36 | any two different strings are ordered one way or the other |
| Seqs.Filter | dashboard.py:28-41 | a boolean-mask selection keeps only rows that pass the mask, and keeps each passing row exactly as often as it occurs |
| Seqs.Present | ui.py:159 | `.dropna()` keeps only present values, and every present value appears in the result |
| Seqs.PresentMultiplicity | ui.py:159 | `.dropna()` keeps each present value exactly as often as it occurs in the column |
| Seqs.PresentSnoc | ui.py:159 | `.dropna()` keeps row order: a cell added at the end contributes its value, if present, at the end |
| Seqs.FilterMonotone | dashboard.py:28-41 | a mask that is implied by another keeps a subsequence of what the other keeps |
| Seqs.FilterFilter | dashboard.py:28-37 | two successive masks are one mask by their conjunction |
| Counting.BumpLookup | ui.py:62 | counting one more occurrence raises that value's count by one and no other |
| Counting.Tally | ui.py:62 | the tally has one entry per distinct value, each counting that value's occurrences, and the counts sum to the number of values |
| Counting.ValueCounts | ui.py:62 | `value_counts` has distinct keys, is ordered by count with the largest first, holds exactly the values that occur with their multiplicities, and sums to the input length |
| Counting.NLargest | ui.py:100 | `nlargest(k)` keeps `min(k, n)` entries of the table, ordered, and no dropped entry has a larger count than a kept one |
| Counting.SortByKey | ui.py:144 | `sort_index` reorders the entries without changing them or their total, ordered by key |
| Counting.SortedUnique | ui.py:36 | `sorted(unique())` is strictly ascending and holds exactly the values of the input |
| Counting.AscendingHasNoDuplicates | ui.py:36 | a strictly ascending option list lists no name twice |
| Ui.GetIsoAlpha | ui.py:9-27 | the code comes from the override table, else the exact lookup, else the first fuzzy match; there is no code exactly when all three fail |
| Ui.OverridesIgnoreRegistry | ui.py:11-20 | the six override names resolve to their fixed codes whatever pycountry says |
| Ui.ExactLookupBeatsFuzzy | ui.py:21-25 | the fuzzy search is not consulted when the exact lookup succeeds |
| Ui.ResolverExamples | ui.py:12-27 | "United States" is USA, "Soviet Union" is RUS, "West Germany" is DEU, and an unknown name yields no code |
| Ui.Explode | ui.py:62 | every token of `str.split(", ").explode()` is a piece of some present cell, and every piece of every present cell is a token |
| Ui.ExplodeAppend | ui.py:62 | `split(", ").explode()` of two tables stacked is the two explosions stacked |
| Ui.ExplodeLength | ui.py:62 | the explosion has as many tokens as the cells split into |
| Ui.CountryTokensOfAppended | ui.py:62 | adding a title adds exactly the countries its cell lists, one each |
| Ui.SplitUnitedStatesIndia | ui.py:62 | "United States, India" splits into the two names |
| Ui.UnitedStatesIndiaCountsEachOnce | ui.py:62 | a title listing "United States, India" adds one to each of those countries and nothing else |
| Ui.TopEntriesCounted | ui.py:100 | every entry `nlargest` keeps from `value_counts` is a value that occurs, with its true count |
| Ui.MinOf | ui.py:42 | `min()` of the release years is one of them and no larger than any |
| Ui.MaxOf | ui.py:42 | `max()` of the release years is one of them and no smaller than any |
| Ui.CreateSidebar | ui.py:30-49 | the type options are All/Movie/TV Show; the country options are the sorted distinct country tokens, exactly; the year bounds are the smallest and largest release years |
| Ui.DefaultSelection | ui.py:33-47 | before the user touches the widgets the type is the first option, "All", the countries are "United States" and "India", and the year range is the full span |
| Ui.CountryCounts | ui.py:61-64 | each country entry counts its occurrences among the tokens, the entries are distinct and ordered by count, and they sum to the token total |
| Ui.TopCountries | ui.py:206-208 | exactly min(10, number of distinct countries) entries, taken from the country counts without repetition, each with its true count, none outranked by a dropped country |
| Ui.TopGenres | ui.py:99-101 | exactly min(15, number of distinct genres) entries, taken from the genre counts without repetition, each with its true count, none outranked by a dropped genre |
| Ui.MapRows | ui.py:65-66 | every map row is a counted country with its unchanged count and its resolved code, and every counted country with a code is on the map |
| Ui.MapRowsLength | ui.py:65-66 | the map has exactly as many rows as there are count entries with a code, so no country is repeated or invented |
| Ui.MapRowsDistinct | ui.py:61-66 | counts with distinct countries give a map that places each country once |
| Ui.WorldMapData | ui.py:61-66 | every map row is a country with its true title count and its code; every country in the column that has a code is on the map, and no country appears twice |
| Ui.UnresolvedCountryStillCounted | ui.py:61-66 | a country without a code is counted but left off the map |
| Ui.ExtractNumber | ui.py:123-127 | a duration yields no number exactly when it is missing or has no digit |
| Ui.ExtractRendered | ui.py:123-127 | a number followed by a unit that does not start with a digit reads back as that number |
| Ui.RuntimeExample | ui.py:123-127 | "90 min" gives 90 |
| Ui.SeasonExample | ui.py:139-143 | "2 Seasons" gives 2 |
| Ui.UnknownDurationHasNoNumber | ui.py:123-127 | a duration without digits gives no number |
| Ui.Durations | ui.py:123-143 | one extracted duration per title of the given type, in row order |
| Ui.SeasonCounts | ui.py:139-144 | season keys strictly ascending, each counting the shows with that many seasons, summing to the shows with a season number |
| Ui.AnalysisType | ui.py:116 | "All" falls back to Movie; any other type is analysed as itself |
| Ui.DurationAnalysis | ui.py:113-152 | "All" and "Movie" show movie runtimes, "TV Show" shows the season table, any other value shows nothing |
| Ui.DescriptionCloud | ui.py:155-171 | an empty table gives the no-data warning; a table whose present descriptions join to nothing gives the no-descriptions warning; otherwise the cloud is drawn from the non-empty space-joined descriptions |
| Ui.Corpus | ui.py:159 | the word-cloud text is empty exactly when there is no present description or only one empty one; otherwise its length is the descriptions' lengths plus one space between each neighbouring pair |
| Ui.CorpusAppend | ui.py:159 | the text is built in row order: a title added at the end contributes nothing when its description is missing, the description alone when it is the first present one, and otherwise one space and the description after the text so far |
| Ui.KeyMetrics | ui.py:179-185 | the total is the row count; the movie and TV-show metrics are the number of "Movie" and "TV Show" values in the type column, as `value_counts` counts them, so they agree with the pie; the two never exceed the total |
| Ui.TypeCounts | ui.py:194 | one slice per distinct type present in the rows and no other; each slice equals the number of rows of that type; when every row has a type the slices sum to the row count |
| Ui.PresentKinds | ui.py:194 | the values `value_counts` sees in the type column are exactly the types of the rows that have one |
| Ui.KindFilterCount | ui.py:182-194 | counting a type with `value_counts` agrees with selecting it by a boolean mask |
| Ui.CreateMainPage | ui.py:174-227 | the page counts every filtered row, shows exactly min(10, distinct countries) countries and min(15, distinct genres) genres, shows the movie-fallback note exactly for "All", and warns of no data exactly for an empty table |
| Dashboard.AnyIn | dashboard.py:39 | `any(c in x for c in selected_countries)` holds exactly when some selected name is a substring of the cell |
| Dashboard.ApplyFilters | dashboard.py:28-41 | the three successive selections are one stable filter by year range, type and country together |
| Dashboard.FilteredRows | dashboard.py:28-41 | a row is shown exactly when it is loaded, its release year lies between both inclusive bounds, its type matches or the type is "All", and, when countries are selected, one of them is a substring of its country cell |
| Dashboard.FilterKeepsOrder | dashboard.py:28-41 | the shown rows are a subsequence of the loaded table |
| Dashboard.FilterIdempotentOnSelection | dashboard.py:28-41 | filtering the filtered table again with the same selection changes nothing |
| Dashboard.RelaxingKeepsShownRows | dashboard.py:28-41 | widening the year range, choosing "All" or adding countries (or clearing them) never hides a shown row nor reorders the shown rows |
| Dashboard.UnrestrictedSelectionKeepsAll | dashboard.py:28-41 | the full year span with "All" and no countries shows the whole table |
| Dashboard.NigerSelectsNigeria | dashboard.py:39 | selecting "Niger" matches a title from "Nigeria" |
| Dashboard.SecondListedCountryMatches | dashboard.py:39 | a title from "United States, India" matches a selection of "India" |
| Dashboard.RunDashboard | dashboard.py:22-45 | nothing is drawn exactly when the loaded table is empty; otherwise the page is drawn from the filtered rows and counts them, never more than were loaded, including when no row is left (the corrected behaviour of the finding below) |
| Dashboard.EmptySelectionDrawsEmptyPage | dashboard.py:22-45 | when the filters leave no row, the page shows zero metrics, an empty map, no pie slices, no bars and the no-data warning |
| Dashboard.ApplyFiltersAsWritten | dashboard.py:28-41 | the frame loses its columns exactly when countries are selected and the year and type stages leave no row; otherwise it holds the filtered rows |
| Dashboard.RunDashboardAsWritten | dashboard.py:22-45 | nothing is drawn exactly for an empty table; a KeyError follows a zero total exactly when countries are selected and the year and type stages leave no row; otherwise the page is the one `RunDashboard` draws |
| Dashboard.UsIndiaMovieOffersDefaults | ui.py:36-41 | over a table of one movie from "United States, India" the country options contain both default countries, so the default multiselect is valid |
| Dashboard.TvShowsOverMoviesRaises | dashboard.py:33-45 | over that table, asking for TV shows with the default countries selected raises as written, while the intended page shows the no-data warning |
| Dashboard.DefaultSelectionFiltersByCountry | dashboard.py:28-41 | with the widgets at their defaults (full year span, "All", the two default countries) the rows shown are those whose country cell mentions "United States" or "India" |
| Dashboard.DefaultViewCountsDefaultCountries | dashboard.py:25-41 | with untouched widgets the page counts the titles whose country cell mentions "United States" or "India" |

## Left out

- The HTTP read of the CSV is a parameter: either the rows or the reason of the exception. The same goes for the `@st.cache_data` caching around it.
- Date parsing in `pd.to_datetime(..., errors="coerce")` is a parameter: a function from a cell's text to a date or to nothing. pandas' format inference over the whole column is not modelled.
- pycountry is a parameter holding its exact lookup and its ranked fuzzy search. An empty fuzzy result stands for `LookupError`.
- Streamlit widgets, plotly figures, matplotlib and WordCloud rendering are not modelled. The page is the data each chart is given.
- The user's picks are a parameter of `RunDashboard`. Streamlit's slider keeps them within the offered bounds, but the model does not assume that. Streamlit's refusal of a multiselect default that is not among the options is not modelled.
- Ui.DurationAnalysis: the 30-bin histogram of runtimes is not modelled. The chart is given the extracted runtimes, with missing ones kept.
- Counting.ValueCounts: the order pandas gives to equal counts is not stated. The model's tie order is insertion order, and no property depends on it.
- Exceptions other than the failed read, the `.str` accessor on a column with no strings, and the column loss described under "## Findings" are not modelled.
- Dashboard.RunDashboard: models the page the dashboard means to draw. When countries are selected and the year and type stages leave no row, the code as written raises instead. `Dashboard.RunDashboardAsWritten` models that case (see "## Findings").
- The columns `show_id`, `director` and `cast` are not modelled, because no core operation reads them.
- Text.FirstDigitRun: `\d` is read as the ASCII digits only. Python's `re` also accepts other Unicode decimal digits.
- Text.Strip: Python's whitespace set is written out by code point. Strings are sequences of code points, with no normalisation.

## Findings

| source | as written | input that shows it | evidently intended | confidence | as-written member | corrected member |
|---|---|---|---|---|---|---|
| dashboard.py:36-41 | on a frame the year and type stages have emptied, `apply` returns an empty object-dtype Series; `df[...]` reads it as a list of column labels, so the frame loses every column and ui.py:182 raises KeyError on `filtered_df['type']` right after "Total Titles" is drawn | a table of one movie from "United States, India", so both default countries are offered (`Dashboard.UsIndiaMovieOffersDefaults`); type "TV Show" with the default countries "United States" and "India" selected (`Dashboard.TvShowsOverMoviesRaises`) | the page is drawn with zero metrics and the no-data warning, as for any other empty selection | not executed; follows from pandas' reading of an empty object-dtype key, so medium | Dashboard.RunDashboardAsWritten | Dashboard.RunDashboard |
