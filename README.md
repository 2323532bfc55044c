# Activity search and Eddington statistics, modelled in Dafny

This project models two parts of geo-activity-playground.

**The activity search** (`geo_activity_playground/core/meta_search.py`):
- A `SearchQuery` holds optional filters on equipment, kind, name pattern and a first and last calendar day.
- The query is folded into a per-row boolean mask over the activity table, and the table is cut down to the rows under a set entry.
- The query has two external forms: the dictionary handed to templates (`to_jinja`) and the URL query string (`to_url_str`).

**The Eddington statistics** (`geo_activity_playground/webui/eddington_blueprint.py`):
- The activities are grouped into whole-kilometre daily totals.
- The Eddington number is the largest E such that E days reach E km.
- The Eddington page shows three things: the table of days reaching each distance, the Eddington number per year, and the running Eddington number over time. The running number is kept by a small ascending list of "top days".

Modules:
- `Wrappers`: Option and Result.
- `Calendar`: valid calendar dates, timestamps at microsecond resolution, midnight and `time.max` of a day, and the ISO date format with its parser.
- `UrlEncoding`: `quote_plus` over UTF-8 with its decoder, plus split and join on a separator character.
- `ActivityTable`: one row of the activity table.
- `MetaSearch`: the search query, the mask, the filter and the two external forms.
- `EddingtonNumbers`: a reference Eddington number defined by counting, the sorts the source uses, and `get_eddington_number`.
- `EddingtonHistogram`: the table on the Eddington page.
- `DailyTotals`: grouping by day and the yearly numbers.
- `EddingtonHistory`: the running history.

Where the code falls short of what it evidently means, the code is modelled as written and a corrected version is modelled next to it (see "## Findings"). The rest of the model uses the corrected versions.

## Model

| member | source | states |
|---|---|---|
| Calendar.StartOfDayBound | geo_activity_playground/core/meta_search.py:91-95 | A timestamp is at or after midnight of day d exactly when its date is d or later |
| Calendar.EndOfDayBound | geo_activity_playground/core/meta_search.py:96-98 | A timestamp is at or before `time.max` of day d exactly when its date is d or earlier |
| Calendar.IsoRoundTrip | geo_activity_playground/core/meta_search.py:61-65 | Parsing the ISO form of a valid date gives the date back |
| UrlEncoding.UnquoteQuote | geo_activity_playground/core/meta_search.py:56-58 | Decoding the `quote_plus` form of any string gives the string back |
| UrlEncoding.QuoteHasNoSeparator | geo_activity_playground/core/meta_search.py:56-58 | A quoted value contains neither `&` nor `=`, so it cannot break the `key=value&...` layout |
| UrlEncoding.SplitJoin | geo_activity_playground/core/meta_search.py:56-58 | Splitting the `&`-join of a non-empty list of items that contain no `&` gives the items back |
| MetaSearch.FormatOptionalDate | geo_activity_playground/core/meta_search.py:61-65 | The empty string exactly for no date; otherwise an ISO string that parses back to the date |
| MetaSearch.ToJinja | geo_activity_playground/core/meta_search.py:30-39 | Lists are passed unchanged; an absent name shows as the empty string; dates read back to the query's dates; `active` holds exactly when equipment, kind, a non-empty name or a date is set (the case flag alone does not count) |
| MetaSearch.ContainsIff | geo_activity_playground/core/meta_search.py:77-90 | The name search holds exactly when the pattern occurs at some position of the name |
| MetaSearch.DateBoundsAreWholeDays | geo_activity_playground/core/meta_search.py:91-98 | The bounds compare calendar days inclusively; a row with no start fails either bound |
| MetaSearch.MakeMask | geo_activity_playground/core/meta_search.py:103-110 | One entry per row, each equal to the default |
| MetaSearch.FilterColumn | geo_activity_playground/core/meta_search.py:113-117 | Entry i is set exactly when column value i is one of the values |
| MetaSearch.AndEquipment | geo_activity_playground/core/meta_search.py:73-74 | The new mask is the old mask and the equipment test, the test being skipped for an empty list |
| MetaSearch.AndKind | geo_activity_playground/core/meta_search.py:75-76 | The same for the kind |
| MetaSearch.AndName | geo_activity_playground/core/meta_search.py:77-90 | The same for the name pattern, case-folded unless the case flag is set; skipped for an absent or empty name |
| MetaSearch.AndStartBegin | geo_activity_playground/core/meta_search.py:91-95 | The same for "starts no earlier than midnight of the first day" |
| MetaSearch.AndStartEnd | geo_activity_playground/core/meta_search.py:96-98 | The same for "starts no later than the end of the last day" |
| MetaSearch.SearchMask | geo_activity_playground/core/meta_search.py:71-98 | Entry i is set exactly when row i matches every set field of the query |
| MetaSearch.ApplySearchQuery | geo_activity_playground/core/meta_search.py:68-100 | The result is the reference filter: the matching rows in table order |
| MetaSearch.FilterIsMatchingSubsequence | geo_activity_playground/core/meta_search.py:68-100 | The result is the subsequence of the table at strictly increasing positions, and a position is chosen exactly when its row matches |
| MetaSearch.FilterMembership | geo_activity_playground/core/meta_search.py:68-100 | A row is in the result exactly when it is in the table and matches |
| MetaSearch.InactiveQueryKeepsEveryRow | geo_activity_playground/core/meta_search.py:68-100 | A query with no filter set returns the whole table unchanged |
| MetaSearch.ToUrlStr | geo_activity_playground/core/meta_search.py:41-58 | The string joins `key=quote_plus(value)` for the pairs in their fixed order, and parsing it gives back the query, with an empty name read as no name |
| MetaSearch.UrlRoundTrip | geo_activity_playground/core/meta_search.py:41-58 | Reading back the URL form of any query gives the query, with an empty name read as no name |
| MetaSearch.SampleEmptyQuery | geo_activity_playground/core/test_meta_search.py:10-28 | The empty query keeps every row of the three-row sample table, ids included |
| MetaSearch.SampleEquipmentQuery | geo_activity_playground/core/test_meta_search.py:31-47 | Equipment `B` keeps exactly the rows with ids 2 and 3 |
| EddingtonNumbers.EddingtonNumber | geo_activity_playground/webui/eddington_blueprint.py:96-106 | Reference definition: E days reach E km, fewer than E + 1 days reach E + 1 km, and E is at most the number of days |
| EddingtonNumbers.ReachedIsAtMostEddington | geo_activity_playground/webui/eddington_blueprint.py:96-106 | Any k reached by k days is at most the Eddington number |
| EddingtonNumbers.EddingtonNumberUnique | geo_activity_playground/webui/eddington_blueprint.py:96-106 | The defining property has exactly one solution |
| EddingtonNumbers.CountAtLeastPermutation | geo_activity_playground/webui/eddington_blueprint.py:103 | How many days reach k depends only on the multiset of totals |
| EddingtonNumbers.EddingtonNumberOrderIndependent | geo_activity_playground/webui/eddington_blueprint.py:103 | Sorting or reordering the totals does not change the number |
| EddingtonNumbers.EddingtonNumberOneMoreDay | geo_activity_playground/webui/eddington_blueprint.py:136-148 | One more day never lowers the number and raises it by at most one |
| EddingtonNumbers.EddingtonNumberOfOneDay | geo_activity_playground/webui/eddington_blueprint.py:97-101 | A single day gives 1 when it reaches 1 km and 0 otherwise |
| EddingtonNumbers.SortDescending | geo_activity_playground/webui/eddington_blueprint.py:103 | `sorted(..., reverse=True)` gives a descending permutation of its input |
| EddingtonNumbers.SortAscendingSpec | geo_activity_playground/webui/eddington_blueprint.py:142 | `list.sort()` gives an ascending permutation of its input |
| EddingtonNumbers.RankBelowValue | geo_activity_playground/webui/eddington_blueprint.py:104-106 | If rank `en` is the first whose descending value is below `en`, the number is `en - 1` |
| EddingtonNumbers.GetEddingtonNumberAsWritten | geo_activity_playground/webui/eddington_blueprint.py:96-106 | As written: any number returned is the Eddington number, and None comes back exactly when there is not exactly one day and every one of the n days reaches n km |
| EddingtonNumbers.AsWrittenFallsOffForThreeLongDays | geo_activity_playground/webui/eddington_blueprint.py:103-106 | For days 10, 10, 10 the as-written function returns None, but the number is 3 |
| EddingtonNumbers.GetEddingtonNumber | geo_activity_playground/webui/eddington_blueprint.py:96-106 | Corrected: always returns the Eddington number |
| EddingtonHistogram.MaxOf | geo_activity_playground/webui/eddington_blueprint.py:35 | The largest total, which is one of the totals |
| EddingtonHistogram.ReverseCumsumCounts | geo_activity_playground/webui/eddington_blueprint.py:37 | The reverse cumulative sum of the exact counts is the number of days reaching each distance |
| EddingtonHistogram.Histogram | geo_activity_playground/webui/eddington_blueprint.py:32-42 | One row per distance 0..max holding the exact count, the days reaching it and the days missing; no table for no days or an all-negative maximum |
| EddingtonHistogram.HistogramTotalsNonIncreasing | geo_activity_playground/webui/eddington_blueprint.py:37-42 | `total` never grows with distance and `missing` grows strictly |
| EddingtonHistogram.HistogramFirstTotal | geo_activity_playground/webui/eddington_blueprint.py:32-37 | With no negative day, `total[0]` is the number of days, also for a table of one row |
| EddingtonHistogram.HistogramReachedRowsArePrefix | geo_activity_playground/webui/eddington_blueprint.py:39-41 | A row's total reaches its distance exactly for distances up to the Eddington number |
| EddingtonHistogram.HistogramEddingtonNumber | geo_activity_playground/webui/eddington_blueprint.py:38-41 | The last row whose total reaches its distance is the Eddington number |
| EddingtonHistogram.EddingtonTable | geo_activity_playground/webui/eddington_blueprint.py:85-87 | The page's table holds exactly the rows with distances from en + 1 to en + 10 |
| EddingtonHistogram.EddingtonTableOfRun | geo_activity_playground/webui/eddington_blueprint.py:85-87 | On rows of consecutive distances, the page's table is the contiguous run of rows for distances en + 1 to en + 10, in their order |
| EddingtonHistogram.HistogramEddingtonTable | geo_activity_playground/webui/eddington_blueprint.py:85-87 | On the histogram, the page's table is `rows[en + 1 .. min(en + 11, len)]`: ascending distances en + 1, en + 2, ..., each once |
| EddingtonHistogram.EddingtonTableStillMissing | geo_activity_playground/webui/eddington_blueprint.py:85-87 | Every distance in the page's table still misses at least one day |
| EddingtonHistogram.ThreeLongDays | geo_activity_playground/webui/eddington_blueprint.py:27-42 | Days 10, 10, 10 give 11 rows, `total[3] == 3`, and number 3 |
| DailyTotals.Trunc | geo_activity_playground/webui/eddington_blueprint.py:130-132 | `int()` truncates toward zero |
| DailyTotals.AddToDay | geo_activity_playground/webui/eddington_blueprint.py:130-132 | Adding a row's distance keeps the days ascending, adds its day, and raises that day's sum by the distance |
| DailyTotals.GroupByDate | geo_activity_playground/webui/eddington_blueprint.py:126-132 | The groups are ascending by day, list exactly the days a counted row starts on, and hold each day's summed distance |
| DailyTotals.DailyDistances | geo_activity_playground/webui/eddington_blueprint.py:126-132 | The daily totals are ascending by day, list exactly the days some row with a start and a distance starts on, and hold the truncated sum of that day's distances |
| DailyTotals.DaysOfYear | geo_activity_playground/webui/eddington_blueprint.py:111-117 | The days of year y: exactly the days listed that fall in y (`DaysOfYearAscending` gives the order, for an ascending list) |
| DailyTotals.DaysOfYearAscending | geo_activity_playground/webui/eddington_blueprint.py:111-117 | A year's slice of ascending days is ascending |
| DailyTotals.HasDayOfYear | geo_activity_playground/webui/eddington_blueprint.py:110-117 | A day has rows among the year's rows exactly when it has rows at all and falls in the year |
| DailyTotals.DaySumOfYear | geo_activity_playground/webui/eddington_blueprint.py:110-117 | A day's sum over the year's rows is its full sum in that year and 0 outside it |
| DailyTotals.DailyDistancesOfYear | geo_activity_playground/webui/eddington_blueprint.py:109-132 | Grouping one year's rows by day gives that year's slice of the daily totals of all rows |
| DailyTotals.YearlyEddington | geo_activity_playground/webui/eddington_blueprint.py:109-122 | One key per year that some counted row starts in, no other key, and each value is the Eddington number of that year's daily totals |
| DailyTotals.YearlyEddingtonFromDailyTotals | geo_activity_playground/webui/eddington_blueprint.py:109-132 | Each year's number is that of the year's slice of the whole daily totals |
| EddingtonHistory.PopSmall | geo_activity_playground/webui/eddington_blueprint.py:143-144 | After dropping short days, the smallest kept day reaches the number of kept days |
| EddingtonHistory.PopSmallSpec | geo_activity_playground/webui/eddington_blueprint.py:143-144 | The result is a suffix of the list, and every head dropped before it was below the list's length at its turn; the result is None exactly when every element is dropped in turn |
| EddingtonHistory.AsWrittenStep | geo_activity_playground/webui/eddington_blueprint.py:137-144 | As written, one day keeps the kept days ascending, each reaching their count, and drawn from the old ones plus the day; it fails exactly when the list is empty and the day is below 1 km; on a non-empty list the number of kept days stays or rises by one |
| EddingtonHistory.AsWrittenStepInvariant | geo_activity_playground/webui/eddington_blueprint.py:137-144 | As written, one day keeps the kept days ascending and each reaching their count; it fails exactly when the list is empty and the day is below 1 km |
| EddingtonHistory.AsWrittenTopDays | geo_activity_playground/webui/eddington_blueprint.py:135-144 | The as-written loop fails exactly when the first day is below 1 km; otherwise the kept days satisfy the invariant and are empty only before the first day |
| EddingtonHistory.AsWrittenAddDay | geo_activity_playground/webui/eddington_blueprint.py:137-144 | One pass of the as-written loop body is one step of that fold |
| EddingtonHistory.AsWrittenStepsByAtMostOne | geo_activity_playground/webui/eddington_blueprint.py:137-147 | After the first day, each day of the as-written loop leaves the count of kept days as it was or one higher |
| EddingtonHistory.AsWrittenStepKeeps | geo_activity_playground/webui/eddington_blueprint.py:137-144 | If the kept days are among the days seen, they still are after one more day |
| EddingtonHistory.AsWrittenKeepsSeenDays | geo_activity_playground/webui/eddington_blueprint.py:135-144 | The kept days are a sub-multiset of the days seen |
| EddingtonHistory.AsWrittenNeverOvercounts | geo_activity_playground/webui/eddington_blueprint.py:135-148 | The as-written history never exceeds the Eddington number of the days so far |
| EddingtonHistory.AsWrittenMissesLaterDays | geo_activity_playground/webui/eddington_blueprint.py:136-148 | For days 5, 1, 2 the as-written loop keeps only the 5 km day, but the number is 2 |
| EddingtonHistory.HistoryOfDaysAsWritten | geo_activity_playground/webui/eddington_blueprint.py:134-148 | As written: IndexError exactly when the first day is below 1 km; otherwise one point per day, at its midnight, holding the count of kept days, and each point is the previous one or one more |
| EddingtonHistory.GetEddingtonNumberHistoryAsWritten | geo_activity_playground/webui/eddington_blueprint.py:125-148 | The same over the daily totals of the rows, including the step of at most one |
| EddingtonHistory.EddingtonFromTop | geo_activity_playground/webui/eddington_blueprint.py:143-148 | When kept days reach their count and dropped days do not exceed it, the count is the Eddington number of all days seen |
| EddingtonHistory.AppendAndSort | geo_activity_playground/webui/eddington_blueprint.py:141-142 | Append and sort give an ascending list with exactly one more element, the day |
| EddingtonHistory.AddDay | geo_activity_playground/webui/eddington_blueprint.py:137-144 | Corrected step: keeps the invariant, grows by at most one, loses nothing (kept plus dropped equal old plus the day), and every dropped day is at most the new count |
| EddingtonHistory.HistoryOfDays | geo_activity_playground/webui/eddington_blueprint.py:134-148 | Corrected: one point per day, at its midnight, holding the Eddington number of all days up to and including it |
| EddingtonHistory.GetEddingtonNumberHistory | geo_activity_playground/webui/eddington_blueprint.py:125-148 | The same over the daily totals of the rows |
| EddingtonHistory.HistoryStepsByAtMostOne | geo_activity_playground/webui/eddington_blueprint.py:145-148 | From one day to the next the corrected history never falls and rises by at most one |

## Left out

- Regular expressions: the name filter is `re.search` with the name as a pattern. It is modelled as a literal substring search. A pattern with regex metacharacters behaves differently, and a malformed pattern raises in the source.
- Case folding for `re.IGNORECASE` is ASCII-only in the model. Python folds all of Unicode.
- Floating point: `distance_km` is a real number and sums are exact. Float rounding before `int()` is not modelled.
- Time resolution: starts are taken at microsecond resolution. The `start` column is `datetime64[ns]`, so a start at 23:59:59.9999995 on day d fails `start <= combine(d, time.max)` in the source. The model cannot represent that start, and `Calendar.EndOfDayBound` admits every start dated d.
- Time zones and pandas `NaT`: a start is a time-zone-free date and time of day, or absent. An absent start fails both date bounds, like the comparison with `NaT`.
- Table structure: the pandas DataFrame is a sequence of row records and its index is the position. `id` is an ordinary column carried in each record. `loc[mask]` keeps rows in index order, which the model assumes.
- The parser of the query string lives in `search_util`, which is not part of this model. `ParseQuery` is the model's own inverse, used to state what the URL form preserves.
- `quote_plus` keeps unreserved ASCII, turns a space into `+`, and writes everything else as `%XX` of the UTF-8 bytes. A model string holds Unicode scalar values only, so strings with lone surrogates are not represented. On those `quote_plus` raises `UnicodeEncodeError`.
- Flask routing, `search_query_history.register_query`, template rendering, the Altair charts and their JSON are not modelled. Neither is the chart data `x` at eddington_blueprint.py:38.
- The histogram on the Eddington page groups the rows of `index()` without first dropping rows lacking a start or a distance. A missing start gives the day `NaT`, and `groupby("day")` at eddington_blueprint.py:29 leaves that key out, so such rows drop out of the histogram without error. A row with a start but no distance makes its day's sum NaN, and `int(NaN)` at eddington_blueprint.py:30 raises `ValueError`. `Histogram` takes the integer daily totals as given and does not model that failure.
- With no days, the source's `max` of an empty key set raises. With only negative totals the frame has no rows. `Histogram` returns None for both, following the code. `EddingtonNumber([])` is 0 in the model, but the page itself raises.
- DailyTotals.YearlyEddington: uses the corrected Eddington number. As written, a year whose n days all reach n km maps to None, for the reason given in "## Findings".
- For a single day below 1 km, the source's `0` at eddington_blueprint.py:101 is an expression statement and control falls through to the loop. The loop then also gives 0, and the as-written model follows that path.

## Findings

| source | as written | input that shows it | evidently intended | confidence | as-written member | corrected member |
|---|---|---|---|---|---|---|
| geo_activity_playground/webui/eddington_blueprint.py:103-106 | When every rank is reached, the loop ends and the function returns None | daily totals 10, 10, 10 (also no days at all) | Return the number of days (3; for no days 0) | not executed | EddingtonNumbers.AsWrittenFallsOffForThreeLongDays | EddingtonNumbers.GetEddingtonNumber |
| geo_activity_playground/webui/eddington_blueprint.py:140-144 | A day shorter than the smallest kept day is discarded for good, so it cannot count later when the number has dropped to its level | daily totals 5, 1, 2 give history 1, 1, 1 | The number of the days so far: 1, 1, 2 | not executed | EddingtonHistory.AsWrittenMissesLaterDays | EddingtonHistory.GetEddingtonNumberHistory |
| geo_activity_playground/webui/eddington_blueprint.py:137-144 | A first day below 1 km is kept, then popped, and `top_days[0]` raises IndexError on the empty list | first daily total 0 | An Eddington number of 0 for that day | not executed | EddingtonHistory.GetEddingtonNumberHistoryAsWritten | EddingtonHistory.GetEddingtonNumberHistory |
