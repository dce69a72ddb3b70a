# Movie-watching diary: a Dafny model of its logic

The program is a one-page personal diary of viewings of films from the
"Dovzhenko Top-100" list. A user logs a viewing (title, date, rating 1–10,
notes). The page lists every logged viewing, charts viewings per month and
the spread of ratings over four groups, and can suggest a film from the list
not yet watched. This project models everything on that page that is not
presentation:

- `Catalog`: the fixed list of 15 titles (`DOVZHENKO_TOP_100`). It repeats no
  title.
- `Dates`: the calendar dates that `datetime.date` holds. A date is stored as
  its `isoformat()` text `YYYY-MM-DD`, and the statistics read that text back
  (`pandas.to_datetime`). Both directions of that round trip are proved.
- `Store`: the `watched_movies` table as the class `WatchLog`. It holds a
  sequence of rows and the next `AUTOINCREMENT` id. `Add` is the `INSERT` and
  `All` is the `SELECT *`.
- `Stats`: `rating_group` and `value_counts` over its labels, and the monthly
  `groupby("month").size()`. Each is specified against an independent count:
  the multiset of the rows' groups or months.
- `Recommender`: the set of catalog titles not yet watched, and the
  suggestion taken from it. `random.choice` is modelled as "any member".
- `Scenarios`: worked cases on small tables. One runs three inserts on a
  fresh `WatchLog` and reads them back. One has ratings 1, 5, 7, 9 and 10.
  One has three viewings in one month rated 2, 8 and 10. One shows two
  viewings in the same month on different days. One shows months coming out
  in calendar order.

Three behaviours of the code are worth stating, because a reader might expect otherwise:

- The store does not validate its inputs. It accepts any title, any notes
  and any rating that fits a 64-bit SQLite INTEGER. A rating outside that
  range is refused by Python's sqlite3 module with `OverflowError` before
  anything is written; `Add` returns `Failure(Overflow)` then. There is no
  other validation error. The titles come only from the catalog drop-down and
  the ratings only from the 1–10 slider. `Stats.SliderRowsPartitioned` states
  what holds under that restriction.
- `rating_group` does not clamp. Ratings below 1 fall in "1–3" and ratings
  above 10 fall in "9–10".
- Apart from that overflow, the only storage failure modelled is the one
  SQLite itself imposes on an `AUTOINCREMENT` table: once rowid 2^63−1 has
  been used, `INSERT` fails with `SQLITE_FULL`. `Add` returns `Failure(Full)`
  then and changes nothing.

## Model

| member | source | states |
|---|---|---|
| `Catalog.TitleSet` | app.py:138 | `set(DOVZHENKO_TOP_100)` holds exactly the catalog's titles and no more of them than the list has entries; `Catalog.CatalogSize` proves it holds exactly 15 |
| `Catalog.ImageCardinality` | app.py:138 | turning a list into a set never gives more elements than the list has entries |
| `Catalog.DistinctCardinality` | app.py:12-28 | a list with no repeated entry turns into a set with as many elements as entries |
| `Catalog.CatalogSize` | app.py:12-28 | the catalog literal has no repeated title, so its set of titles has exactly 15 members |
| `Dates.DaysInMonth` | app.py:60 | a month has 28 to 31 days, and it has 29 exactly for February of a leap year |
| `Dates.IsoFormat` | app.py:68 | `date.isoformat()` is ten characters: four year digits, `-`, two month digits, `-`, two day digits |
| `Dates.ParseIso` | app.py:91 | whatever `to_datetime` accepts from the stored text is a real calendar date |
| `Dates.NumberOfDigits` | app.py:68 | a number written zero-padded to enough digits reads back as the same number |
| `Dates.DigitsOfNumber` | app.py:91 | a digit string read as a number and written back at the same width gives the same string |
| `Dates.ParseIsoFormat` | app.py:68 | the stored text of any date parses back to that same date |
| `Dates.FormatParseIso` | app.py:91 | every text that parses is exactly the ISO text of the date it parses to, so the format is canonical |
| `Dates.SameMonthWhateverTheDay` | app.py:91-92 | two stored dates in the same year and month get the same month key, whatever their days |
| `Dates.MonthOrderTotal` | app.py:96 | the chronological order of month keys is a strict total order: irreflexive and asymmetric, transitive, and any two different months are ordered one way or the other |
| `Store.WatchLog.constructor` | app.py:36-44 | a freshly created table has no rows, and its first id will be 1 |
| `Store.WatchLog.Add` | app.py:66-69 | appends exactly one row with the title, the ISO text of the date, the rating and the notes. Its id is the next counter value and larger than every earlier id. Earlier rows are unchanged. A rating outside 64 bits fails with Overflow, and once the largest rowid has been used it fails with Full; a failure changes nothing |
| `Store.WatchLog.All` | app.py:78 | returns every row in insertion order. The ids are strictly increasing and below the next id, every stored date parses and every stored rating fits 64 bits |
| `Stats.RatingGroup` | app.py:107-115 | the group, shown through `Stats.Label` as the source's strings, is "1–3" iff r ≤ 3, "4–6" iff 4 ≤ r ≤ 6, "7–8" iff 7 ≤ r ≤ 8, and "9–10" iff r ≥ 9. It is defined for every integer, with no clamping |
| `Stats.LabelsDistinct` | app.py:108-115 | different groups carry different labels (`Stats.Label`, the strings "1–3", "4–6", "7–8", "9–10") |
| `Stats.SliderRatingInOneGroup` | app.py:61 | a rating from the 1–10 slider lies in the range of exactly one label, the one `rating_group` gives it. The default 7 lies in "7–8" |
| `Stats.SliderRowsPartitioned` | app.py:61 | when every stored rating came from the slider, each row lies in exactly one label's range, that of its group |
| `Stats.Groups` | app.py:117 | the `rating_group` column has one entry per row, the group of that row's rating |
| `Stats.ValueCounts` | app.py:118 | `value_counts()` of a column has a label exactly when the column contains it, and never a count of 0 |
| `Stats.ValueCountsCorrect` | app.py:118 | each label's count is the number of times it occurs in the column |
| `Stats.ValueCountsSum` | app.py:118 | the counts add up to the length of the column |
| `Stats.RatingCounts` | app.py:117-118 | `value_counts()` of the `rating_group` column has a label exactly when some row's rating maps to it, and never a count of 0; `Stats.RatingCountsCorrect` and `Stats.RatingCountsSum` fix the counts |
| `Stats.RatingCountsCorrect` | app.py:117-118 | a label is present in `value_counts` iff some row maps to it. Its count is the number of rows whose rating maps to it |
| `Stats.RatingCountsSum` | app.py:117-118 | the counts add up to the number of rows |
| `Stats.Months` | app.py:91-92 | the month column is defined exactly when every stored date parses. It then has one entry per row, the year and month of that row's date |
| `Stats.MonthlyCounts` | app.py:91-96 | `groupby("month").size()` exists exactly when every stored date parses, and is then in chronological order; `Stats.MonthlyCountsCorrect` fixes its months and counts |
| `Stats.GroupByMonth` | app.py:96 | the groups come out in strictly increasing chronological order with no empty group; `Stats.GroupByMonthCorrect` fixes the counts |
| `Stats.BumpChronological` | app.py:96 | adding one viewing to a chronological grouping keeps it chronological and adds no month other than the viewing's |
| `Stats.BumpCounts` | app.py:96 | adding one viewing raises its month's count by one, leaves every other count as it was, and raises the total by one |
| `Stats.GroupByMonthCorrect` | app.py:96 | the grouping is in strictly increasing chronological order and has no empty group. Each month's count is how often the month occurs. The counts sum to the number of viewings |
| `Stats.MonthlyCountsCorrect` | app.py:91-96 | on rows whose dates parse, the monthly counts exist and are chronological. A month appears iff some row falls in it, and its count is the number of such rows. The counts sum to the row count |
| `Recommender.WatchedTitles` | app.py:137 | a title is watched iff some row carries it. An empty table gives the empty set |
| `Recommender.Unwatched` | app.py:138 | a title is unwatched iff it is in the catalog and not watched |
| `Recommender.Suggest` | app.py:140-144 | the result is "all watched" (None) iff no title is unwatched. Otherwise it is a catalog title that has not been watched |
| `Recommender.EmptyLogSuggestsWholeCatalog` | app.py:137-138 | with an empty table nothing is watched, and all 15 catalog titles are unwatched |
| `Recommender.AllWatchedIff` | app.py:141-144 | nothing is left to suggest iff every catalog title has been watched |
| `Recommender.UnwatchedAfterAppend` | app.py:137-138 | logging one more viewing removes exactly its title from the unwatched titles |
| `Scenarios.FiveRatings` | app.py:107-118 | ratings 1, 5, 7, 9, 10 count as 1, 1, 1 and 2 in the four groups |
| `Scenarios.CountFive` | app.py:118 | the labels of ratings 1, 5, 7, 9, 10 count as 1, 1, 1 and 2 |
| `Scenarios.CountTwoEightTen` | app.py:118 | the labels of ratings 2, 8, 10 count once each, with "4–6" absent |
| `Scenarios.ThreeInserts` | app.py:66-96 | three inserts on a fresh table get ids 1, 2, 3, read back in that order with the ISO date text, and on one day with ratings 2, 8, 10 give one month of three and one watch in each of "1–3", "7–8", "9–10" |
| `Scenarios.SameMonthDifferentDays` | app.py:91-96 | two viewings in the same month on any days make one month with count 2 |
| `Scenarios.ThreeWatchesOneMonth` | app.py:91-118 | three viewings in one month rated 2, 8, 10 make one month with count 3, and groups "1–3", "7–8", "9–10" once each with "4–6" absent |
| `Scenarios.EarlierMonthFirst` | app.py:96 | a viewing logged later but dated in an earlier month comes first in the monthly counts |

## Left out

- Page rendering: the Streamlit title, headers, form widgets, tables, messages and the button. The form's inputs become the arguments of `Add`, and the button's click becomes a call to `Suggest`.
- Both matplotlib charts and the pie chart's `autopct` percentages. These are drawing and floating-point formatting.
- SQLite I/O: the connection, the on-disk file `movies.db`, `commit` and its durability across restarts. The table is the in-memory `WatchLog`. Disk and I/O failures are not modelled.
- `check_same_thread=False` and several sessions sharing one connection. Concurrency is not modelled.
- `Stats.RatingCounts`: `value_counts` also orders its labels by decreasing count, which only sets the slice order of the pie. The model is a map and does not capture that order.
- `Recommender.Unwatched`: the source turns the set into a list in an unspecified order. The model keeps the set.
- `Recommender.Suggest`: `random.choice` is modelled as an arbitrary member. No distribution and no independence between calls is claimed.
- `Dates.ParseIso`: it accepts only the `YYYY-MM-DD` shape that the store writes. The other text forms that `pandas.to_datetime` accepts are not modelled, and neither are pandas' timestamp bounds (roughly years 1677–2262). The date picker only offers dates near today.
- The DataFrame's in-place column assignments (`watch_date`, `month`, `rating_group`) are modelled as functions that compute the new column from the rows.
- The store does not check that a title belongs to the catalog or that a rating is in 1–10, and neither does the model. Those limits come only from the input widgets.
