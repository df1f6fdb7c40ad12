# Merchant transaction analyses in Dafny

This project models `MerchantAnalysis`, the analysis layer of a Spark job over
merchant card transactions. The class has no state. Each of its five tasks is one
declarative dataframe pipeline over the cleaned transaction table:

1. the top 5 merchants by purchase total per city and month;
2. the average sale per merchant and state;
3. the top 3 hours by sales per product category;
4. the ten most popular merchants per city, and the dominant category per city;
5. five business-recommendation reports:
   - top cities;
   - top categories;
   - monthly trends;
   - hourly patterns;
   - installment profitability (`_analyze_installment_profitability`).

Each pipeline is modelled as a function over `seq<Transaction>`, and the
properties are proved as contracts and lemmas.

The project is split into modules, one per file:

- `Transactions`: the cleaned row.
  - Merchant name and category are never null.
  - The year, month and hour are already extracted, and their ranges are the field types.
- `Grouping`: `groupBy(key).agg(sum, count)`.
  - It keeps one group per key present in the input; a null key value is a key like any other.
  - It proves that the group counts add up to the number of rows.
- `Ranking`: `dense_rank()` over a window.
  - The rank is 1 plus the number of distinct strictly better values in the same partition.
  - It provides the "rank ≤ limit" filter and proves the rank properties once, for every window.
- `Ordering`: `orderBy`.
  - Sort keys are sequences of atoms, compared lexicographically.
  - Ascending order puts nulls first, as Spark does.
  - A descending real column is negated.
  - The sort is an insertion sort, proved to return a sorted permutation.
- `Formats`: the rendered values.
  - the "MMM yyyy" month label, and its parser;
  - the hour cast to a string, and its parser;
  - `round(x, 2)` with HALF_UP rounding.
- `MerchantAnalysis`: the five tasks and the installment profitability.

## Model

| member | source | states |
|---|---|---|
| Grouping.GroupBy | src/analysis/tasks.py:66-71 | one group per distinct key present in the rows, with the sum of its amounts and its row count (at least 1); keys are pairwise different |
| Grouping.CountsCoverRows | src/analysis/tasks.py:71 | in any permutation of the groups, the counts add up to the number of input rows |
| Grouping.SumOfAtLeast | src/analysis/tasks.py:123 | if every amount of a key is at least c, the key's sum is at least c times its count |
| Grouping.AggregatesPermutation | src/analysis/tasks.py:294-303 | re-ordering the groups keeps them an exact aggregation of the rows; used by the sorts of monthly_trends (line 294) and hourly_patterns (line 303) |
| Grouping.CountOfPositive | src/analysis/tasks.py:71 | a key has a positive count exactly when some row carries it |
| Grouping.SumOf | src/analysis/tasks.py:71 | `sum(purchase_amount)` of a key is 0 when no row of the rows carries that key |
| Grouping.SumOfConcat | src/analysis/tasks.py:71 | the sum and the count of a key over two row blocks are the sums of the per-block values |
| Grouping.SumOfRemoved | src/analysis/tasks.py:71 | taking one row out of any position lowers a key's sum by its amount and its count by 1 when the row has that key, and changes nothing otherwise |
| Grouping.SumOfPermuted | src/analysis/tasks.py:66-71 | a key's sum and count are the same over any reordering of the rows |
| Grouping.HasKeyPermuted | src/analysis/tasks.py:66-70 | a key is present in the rows exactly when it is present in any reordering of them |
| Grouping.AggregatesOfPermutedRows | src/analysis/tasks.py:66-71 | the groups of the rows are also the exact groups of any reordering of the rows: the aggregation does not depend on row order |
| Grouping.KeysOf | src/analysis/tasks.py:66-70 | the distinct keys of the rows: no repetition, and k is listed exactly when some row has key k |
| Ranking.RankOrder | src/analysis/tasks.py:77-79 | within one partition, two elements share a dense rank exactly when their ordering values are equal, and a smaller rank means a strictly better value |
| Ranking.RankStrict | src/analysis/tasks.py:77-79 | a strictly better value in the same partition gets a strictly smaller rank |
| Ranking.RankNoGaps | src/analysis/tasks.py:77-79 | every rank from 1 up to an element's own rank is held by an element of the same partition |
| Ranking.KeepRanked | src/analysis/tasks.py:77-79 | keeps exactly the elements whose dense rank is at most the limit, each paired with its rank; when the input lists no element twice, no element is listed twice in the result |
| Ranking.AtMostLimitRanks | src/analysis/tasks.py:79 | after the rank filter, a partition holds at most `limit` distinct ranks |
| Ranking.AtMostLimitItemsWithoutTies | src/analysis/tasks.py:79 | without ties inside a partition, at most `limit` of its elements survive the filter |
| Ranking.WorstExists | src/analysis/tasks.py:77 | a non-empty finite set of values under a strict total order has a worst element |
| Ranking.RankRange | src/analysis/tasks.py:79 | the set {1..limit} has exactly `limit` elements |
| Ranking.DenseRank | src/analysis/tasks.py:77-79 | the dense rank is at least 1, and it is 1 exactly when no element of the same partition has a strictly better value |
| Ranking.RowsInItems | src/analysis/tasks.py:79 | when no element is listed twice, the number of rows listed for a partition equals the number of distinct elements kept in it |
| Ranking.AtMostLimitRowsWithoutTies | src/analysis/tasks.py:79 | without ties inside a partition, the filtered list holds at most `limit` rows (and at most `limit` distinct elements) of that partition |
| Ordering.SortBy | src/analysis/tasks.py:95-313 | the result is a permutation of the input, sorted by the key; used by every `orderBy` of the class (lines 95, 128, 166, 273, 283, 294, 303 and 313) |
| Ordering.InsertSorted | src/analysis/tasks.py:95-313 | inserting into a sorted sequence keeps it sorted; used by every `orderBy` of the class (lines 95, 128, 166, 273, 283, 294, 303 and 313) |
| Ordering.KeyLeTransitive | src/analysis/tasks.py:95-313 | lexicographic key comparison is transitive; used by every `orderBy` of the class (lines 95, 128, 166, 273, 283, 294, 303 and 313) |
| Ordering.KeyLeTotal | src/analysis/tasks.py:95-313 | any two keys are comparable one way or the other; used by every `orderBy` of the class (lines 95, 128, 166, 273, 283, 294, 303 and 313) |
| Ordering.TextLessTransitive | src/analysis/tasks.py:95-221 | string order is transitive; used for the month label at line 95, the category at line 166 and the struct maximum at line 221 |
| Ordering.TextLessTotal | src/analysis/tasks.py:95-221 | two different strings are ordered one way or the other; used for the month label at line 95, the category at line 166 and the struct maximum at line 221 |
| Ordering.TextLessIrreflexive | src/analysis/tasks.py:95-221 | no string sorts before itself; used for the month label at line 95, the category at line 166 and the struct maximum at line 221 |
| Ordering.AtomLessTransitive | src/analysis/tasks.py:95-313 | the order on single sort-key values is transitive; used by every `orderBy` of the class (lines 95, 128, 166, 273, 283, 294, 303 and 313) |
| Ordering.AtomLessTotal | src/analysis/tasks.py:95-313 | two different sort-key values are ordered one way or the other; used by every `orderBy` of the class (lines 95, 128, 166, 273, 283, 294, 303 and 313) |
| Ordering.AtomLessIrreflexive | src/analysis/tasks.py:95-313 | no sort-key value sorts before itself; used by every `orderBy` of the class (lines 95, 128, 166, 273, 283, 294, 303 and 313) |
| Ordering.KeyLeSingle | src/analysis/tasks.py:128-313 | sorting by one column puts a before b exactly when a's value is smaller or equal; used by the one-column sorts at lines 128, 273, 283, 303 and 313 |
| Ordering.PermutationKeepsDistinct | src/analysis/tasks.py:95-313 | a permutation of a repetition-free sequence is repetition-free; used by every `orderBy` of the class (lines 95, 128, 166, 273, 283, 294, 303 and 313) |
| Ordering.PermutationKeepsKeysDistinct | src/analysis/tasks.py:95-313 | a permutation keeps the keys pairwise different; used by every `orderBy` of the class (lines 95, 128, 166, 273, 283, 294, 303 and 313) |
| Ordering.DistinctOccursOnce | src/analysis/tasks.py:95-313 | an element of a repetition-free sequence occurs at most once in its multiset; used by every `orderBy` of the class (lines 95, 128, 166, 273, 283, 294, 303 and 313) |
| Formats.MonthLabel | src/analysis/tasks.py:82-90 | the label has 8 characters: the 3-letter month abbreviation, a space and the 4-digit year |
| Formats.MonthLabelRoundTrip | src/analysis/tasks.py:82-90 | parsing the label of (year, month) gives back (year, month) |
| Formats.ParseMonthLabelInverse | src/analysis/tasks.py:82-90 | any string that parses to (year, month) is the label of (year, month) |
| Formats.MonthLabelExample | src/analysis/tasks.py:55 | January 2023 is labelled "Jan 2023" |
| Formats.YearTextOfValue | src/analysis/tasks.py:88 | four digits are the zero-padded rendering of the year they denote |
| Formats.YearText | src/analysis/tasks.py:88 | the year of the label is written with exactly four digits, and those digits denote the year |
| Formats.MonthNumberOfAbbreviation | src/analysis/tasks.py:88 | each month's abbreviation reads back as that month |
| Formats.AbbreviationOfMonthNumber | src/analysis/tasks.py:88 | a string that reads as month m is m's abbreviation |
| Formats.HourText | src/analysis/tasks.py:165 | the hour cast to a string has one or two characters |
| Formats.HourTextRoundTrip | src/analysis/tasks.py:165 | the hour string parses back to the hour, so every output hour lies in 0..23 |
| Formats.ParseHourInverse | src/analysis/tasks.py:165 | any string that parses to an hour is that hour's cast |
| Formats.DigitChar | src/analysis/tasks.py:88 | a digit character whose value is the digit |
| Formats.RoundCentsUp | src/analysis/tasks.py:93 | for x ≥ 0, a non-negative whole number of cents within half a cent of x, with a tie going up |
| Formats.Round2 | src/analysis/tasks.py:93 | a whole number of cents within half a cent of x, with the sign of x kept; a tie goes away from zero (HALF_UP): up for x ≥ 0, down for x < 0 |
| Formats.Round2IsTheNearestCent | src/analysis/tasks.py:93 | any whole number of cents within half a cent of x, with a tie on the side away from zero, is exactly round(x, 2): the rounding is unique |
| Formats.Round2OfCents | src/analysis/tasks.py:93 | rounding a value that is already whole cents changes nothing |
| Formats.Round2Idempotent | src/analysis/tasks.py:93 | rounding twice is rounding once |
| Formats.Round2Positive | src/analysis/tasks.py:127 | a value of at least half a cent rounds to at least one cent |
| Formats.CentsIsCents | src/analysis/tasks.py:93 | n/100 and its negation are whole numbers of cents |
| MerchantAnalysis.MonthlyMerchantTotals | src/analysis/tasks.py:66-71 | exactly one aggregate per (year, month, city, merchant): purchase_total is the sum and no_of_sales the row count |
| MerchantAnalysis.MonthlyMerchantRank | src/analysis/tasks.py:73-78 | the dense rank within a city and month is at least 1, and it is 1 exactly when no merchant of that city and month has a higher total, or an equal total with more sales |
| MerchantAnalysis.MonthlySalesCoverTransactions | src/analysis/tasks.py:71 | the no_of_sales values add up to the number of transactions |
| MerchantAnalysis.HigherTotalThenSalesIsStrict | src/analysis/tasks.py:73-75 | "higher total, then more sales" is a strict total order |
| MerchantAnalysis.MonthlyMerchantRankIsDense | src/analysis/tasks.py:73-79 | within a city and month: equal (total, sales) pairs share a rank; a smaller rank means a higher total or an equal total with more sales; ranks have no gaps |
| MerchantAnalysis.TopMonthlyMerchants | src/analysis/tasks.py:77-79 | exactly the merchants of rank ≤ 5, each with its dense rank, and each (year, month, city, merchant) group listed once |
| MerchantAnalysis.RankedMonthlyMerchants | src/analysis/tasks.py:95 | as written: a permutation of the kept merchants, each listed once; years never decrease; within a year, labels never decrease as text; within a year and month, city ids ascend with nulls first; within a city and month, ranks never decrease |
| MerchantAnalysis.RankedMonthlyMerchantsChronological | src/analysis/tasks.py:95 | calendar order: a permutation of the kept merchants, each listed once, ordered by year, then month number, then city id ascending with nulls first, then rank within a city and month |
| MerchantAnalysis.LabelOrderMeaning | src/analysis/tasks.py:95 | the sort key (year, label, city, rank) orders by year, then label text, then city id ascending with nulls first, then rank within one city and month |
| MerchantAnalysis.CalendarOrderMeaning | src/analysis/tasks.py:95 | the sort key (year, month, city, rank) orders by year, then month, then city id ascending with nulls first, then rank within one city and month |
| MerchantAnalysis.SortedByLabel | src/analysis/tasks.py:95 | a list sorted on (year, label, city, rank) has years never decreasing, labels never decreasing within a year, city ids ascending (nulls first) within a month, and ranks never decreasing within a city and month |
| MerchantAnalysis.SortedByCalendar | src/analysis/tasks.py:95 | a list sorted on (year, month, city, rank) is in calendar order, with city ids ascending (nulls first) within a month and ranks never decreasing within a city and month |
| MerchantAnalysis.FebruaryLabelBeforeJanuary | src/analysis/tasks.py:82-95 | "Feb yyyy" sorts before "Jan yyyy" as text |
| MerchantAnalysis.FebruaryListedBeforeJanuary | src/analysis/tasks.py:95 | as written, February rows of a year come before its January rows |
| MerchantAnalysis.JanuaryListedBeforeFebruary | src/analysis/tasks.py:95 | in calendar order, January rows of a year come before its February rows |
| MerchantAnalysis.AtMostFiveRanksPerMonthCity | src/analysis/tasks.py:79 | each city and month keeps at most 5 distinct ranks |
| MerchantAnalysis.AtMostFiveMerchantsWithoutTies | src/analysis/tasks.py:79 | without tied (total, sales) pairs, each city and month has at most 5 rows in the ranked list |
| MerchantAnalysis.RankedMerchantsAreRanked | src/analysis/tasks.py:77-79 | every listed merchant is a monthly group carrying its own dense rank, between 1 and 5 |
| MerchantAnalysis.MonthlyTotalsNonIncreasing | src/analysis/tasks.py:73-95 | within one city and month, listed purchase totals never increase |
| MerchantAnalysis.RenderMonthlyTop | src/analysis/tasks.py:81-94 | each output row's label is the "MMM yyyy" label of its year and month and parses back to them; city, merchant and sales are carried over; the total is rounded to within half a cent |
| MerchantAnalysis.RenderedCitiesAscending | src/analysis/tasks.py:81-95 | when the ranked rows list the cities of a month in ascending order, so do the rendered rows of each month label |
| MerchantAnalysis.RenderedInCalendarOrder | src/analysis/tasks.py:81-95 | when the ranked rows are in calendar order, the parsed labels of the rendered rows never decrease |
| MerchantAnalysis.TopMerchantsByCityMonth | src/analysis/tasks.py:66-95 | Task 1 as written: row i is the rendering of the i-th ranked merchant (label, city, merchant, total within half a cent, sales); within a month label, city ids ascend with nulls first |
| MerchantAnalysis.TopMerchantsByCityMonthChronological | src/analysis/tasks.py:66-95 | Task 1 with calendar order: row i is the rendering of the i-th ranked merchant; the parsed (year, month) of the labels never decrease; within a month, city ids ascend with nulls first |
| MerchantAnalysis.AcmeMonthlyTop | src/analysis/tasks.py:66-95 | a single January 2023 sale of 100.00 by Acme in city 1 yields one row, ("Jan 2023", 1, "Acme", 100.00, 1) |
| MerchantAnalysis.GreaterIsStrict | src/analysis/tasks.py:158 | "larger total first" is a strict total order |
| MerchantAnalysis.MoreIsStrict | src/analysis/tasks.py:209 | "larger count first" is a strict total order |
| MerchantAnalysis.DescendingMeaning | src/analysis/tasks.py:128 | sorting on the negated value puts larger values first |
| MerchantAnalysis.Mean | src/analysis/tasks.py:123 | the average of a non-empty group times its count is its sum |
| MerchantAnalysis.AverageSaleByMerchantState | src/analysis/tasks.py:122-128 | one row per present (merchant, state), a null state included; each average is round(sum/count, 2) of its group; averages never increase down the list |
| MerchantAnalysis.AverageRowsOfGroups | src/analysis/tasks.py:122-127 | every average row is the rounded mean of its group; every group has a row; keys are pairwise different |
| MerchantAnalysis.PermutedAverages | src/analysis/tasks.py:128 | sorting the average rows keeps their meaning, their coverage and their distinct keys, and orders them by average, largest first |
| MerchantAnalysis.AverageOfGroupAtLeastOneCent | src/analysis/tasks.py:122-128 | an average row over amounts of at least 0.005 each holds at least 0.01 after HALF_UP rounding |
| MerchantAnalysis.PositiveAmountsGivePositiveAverages | src/analysis/tasks.py:122-128 | when every amount is at least 0.005, every rounded average is at least 0.01 |
| MerchantAnalysis.HourlyCategoryTotals | src/analysis/tasks.py:154-156 | exactly one sum per (category, hour) |
| MerchantAnalysis.HourRank | src/analysis/tasks.py:158-160 | the dense rank within a category is at least 1, and it is 1 exactly when no hour of that category has a larger total |
| MerchantAnalysis.HourRankIsDense | src/analysis/tasks.py:158-160 | within a category, equal totals share a rank, a larger total has a smaller rank, and ranks have no gaps |
| MerchantAnalysis.TopHours | src/analysis/tasks.py:160-162 | exactly the hours of rank ≤ 3 in their category, each with its rank, and each (category, hour) listed once |
| MerchantAnalysis.CategoryThenRankMeaning | src/analysis/tasks.py:166 | the sort key (category, rank) orders by category text, then by rank |
| MerchantAnalysis.RankedTopHours | src/analysis/tasks.py:166 | a permutation of the kept hours, each listed once, with category names never decreasing and ranks never decreasing within a category |
| MerchantAnalysis.SortedByCategoryThenRank | src/analysis/tasks.py:166 | a list sorted on (category, rank) has category names never decreasing and ranks never decreasing within a category |
| MerchantAnalysis.TopHoursByCategory | src/analysis/tasks.py:154-166 | each row's hour string parses back to the kept hour; categories never decrease down the list |
| MerchantAnalysis.RenderPeakHours | src/analysis/tasks.py:163-165 | row i carries the category of the i-th ranked hour, and its hour string parses back to that hour |
| MerchantAnalysis.RankedHoursAreRanked | src/analysis/tasks.py:160-162 | every listed hour is an hourly group carrying its own dense rank, between 1 and 3 |
| MerchantAnalysis.AtMostThreeRanksPerCategory | src/analysis/tasks.py:160-162 | each category keeps at most 3 distinct ranks |
| MerchantAnalysis.AtMostThreeHoursWithoutTies | src/analysis/tasks.py:160-162 | without tied totals inside a category, the category has at most 3 rows in the ranked list |
| MerchantAnalysis.MerchantCityCounts | src/analysis/tasks.py:205-207 | exactly one transaction count per (merchant, city) |
| MerchantAnalysis.PopularityRank | src/analysis/tasks.py:209-212 | the dense rank within a city is at least 1, and it is 1 exactly when no merchant of that city has more transactions |
| MerchantAnalysis.TopMerchantsByCity | src/analysis/tasks.py:205-213 | exactly the merchants whose dense rank by count within their city is ≤ 10, each with its count and rank, and each (merchant, city) once |
| MerchantAnalysis.PopularityRowsOfKept | src/analysis/tasks.py:211-213 | the kept ranked groups, rendered as rows, keep their meaning, completeness and distinct keys |
| MerchantAnalysis.PopularityRanksHaveNoGaps | src/analysis/tasks.py:209-213 | below every listed rank, each smaller rank is listed for the same city |
| MerchantAnalysis.EveryCityHasALeader | src/analysis/tasks.py:209-213 | every city with a transaction has a listed merchant of rank 1 |
| MerchantAnalysis.PopularityRankOrder | src/analysis/tasks.py:209-212 | within a city, equal counts share a rank and more transactions give a smaller rank |
| MerchantAnalysis.PopularRanksDiffer | src/analysis/tasks.py:209-213 | without tied counts in a city, two different listed merchants of that city hold different ranks |
| MerchantAnalysis.AtMostTenMerchantsWithoutTies | src/analysis/tasks.py:209-213 | when no two merchants of a city have the same transaction count, at most 10 merchants are listed for that city |
| MerchantAnalysis.DistinctRanksBoundRows | src/analysis/tasks.py:213 | rows of one city whose ranks are pairwise different and lie in 1..limit number at most `limit` |
| MerchantAnalysis.AtMostTenRowsWithoutTies | src/analysis/tasks.py:209-213 | without tied counts in a city, at most 10 rows of the result name that city |
| MerchantAnalysis.CityCategoryCounts | src/analysis/tasks.py:215-217 | exactly one count (and sum) per (city, category) |
| MerchantAnalysis.StructGreaterTransitive | src/analysis/tasks.py:221 | the (count, category) struct order is transitive |
| MerchantAnalysis.MaxStructIn | src/analysis/tasks.py:219-221 | for a city with groups, a group of that city that no group of the city beats on (count, category); nothing for a city without groups |
| MerchantAnalysis.MaxStructIsDominant | src/analysis/tasks.py:219-226 | the struct maximum has the largest count in its city, and ties on count go to the greatest category name |
| MerchantAnalysis.DominantRows | src/analysis/tasks.py:219-226 | one row per listed city, each naming an unbeaten group of that city |
| MerchantAnalysis.DominantCategoryByCity | src/analysis/tasks.py:215-227 | one row per city present (null included); category_transactions is the dominant category's count and is at least every category's count in that city; on ties the dominant category is the greatest name |
| MerchantAnalysis.CitiesHaveGroups | src/analysis/tasks.py:215-220 | every city present has at least one (city, category) group |
| MerchantAnalysis.DominantRowsAreDominant | src/analysis/tasks.py:219-226 | every row built from an unbeaten group is dominant for its city |
| MerchantAnalysis.DominantRowsCities | src/analysis/tasks.py:215-227 | one row per distinct city gives pairwise different cities, and a city has a row exactly when some transaction has it |
| MerchantAnalysis.PerformanceRowsOfGroups | src/analysis/tasks.py:266-274 | every performance row holds its group's sum, count and sum/count; every group has a row; keys are pairwise different |
| MerchantAnalysis.PerformanceBySales | src/analysis/tasks.py:266-284 | one row per present key with sum, count and average, largest total first |
| MerchantAnalysis.PermutedPerformance | src/analysis/tasks.py:273 | sorting the performance rows keeps their meaning, coverage and distinct keys, and orders them by total, largest first |
| MerchantAnalysis.TopBySales | src/analysis/tasks.py:266-284 | at most n rows, largest total first, keys distinct, exact aggregates; a key is left out only when n rows are kept and every kept total is at least its total |
| MerchantAnalysis.PrefixKeepsLargest | src/analysis/tasks.py:319-320 | cutting a list sorted by total to its first n rows leaves out only keys whose total is at most every kept one |
| MerchantAnalysis.TopCities | src/analysis/tasks.py:266-274 | top_cities: at most 5 cities, each listed once, largest total first, exact sums, counts and averages; no left-out city has a larger total than a kept one |
| MerchantAnalysis.TopCategories | src/analysis/tasks.py:276-284 | top_categories: the same promise for categories, each listed once |
| MerchantAnalysis.CalendarMonthOrderMeaning | src/analysis/tasks.py:294 | sorting on (year, month) puts different months in calendar order |
| MerchantAnalysis.SortedByCalendarMonth | src/analysis/tasks.py:294 | a month list sorted on (year, month) with distinct keys is strictly increasing |
| MerchantAnalysis.MonthlyTrends | src/analysis/tasks.py:286-295 | one group per calendar month present, strictly ascending, with counts adding up to the number of transactions |
| MerchantAnalysis.SortedByHour | src/analysis/tasks.py:303 | an hour list sorted on hour with distinct keys is strictly increasing |
| MerchantAnalysis.IncreasingHoursFromIndex | src/analysis/tasks.py:297-303 | in a strictly increasing hour list, the hour at position i is at least i |
| MerchantAnalysis.IncreasingHoursAtMost24 | src/analysis/tasks.py:297-303 | a strictly increasing hour list has at most 24 entries |
| MerchantAnalysis.HourlyPatterns | src/analysis/tasks.py:297-304 | one group per hour present, strictly ascending, at most 24 rows, with counts adding up to the number of transactions |
| MerchantAnalysis.InstallmentAnalysis | src/analysis/tasks.py:306-314 | one row per installments value present, with exact sum, count and average, in ascending order with the null group first |
| MerchantAnalysis.PermutedInstallments | src/analysis/tasks.py:313 | sorting the installment rows keeps their meaning and coverage, and orders them strictly ascending with nulls first |
| MerchantAnalysis.ExpectedDefaultLoss | src/analysis/tasks.py:363-366 | the loss is 11.45% of the total when installments > 1, and 0 otherwise; in particular 0 for a single payment and for a null installments value |
| MerchantAnalysis.SqlGreater | src/analysis/tasks.py:365 | SQL's `installments > 1` is null exactly when installments is null, and otherwise is the integer comparison |
| MerchantAnalysis.PaidInInstallments | src/analysis/tasks.py:365 | the loss branch is taken exactly when `when` accepts SQL's `installments > 1`: for a present value above 1, and never for a null value (null comparison) or a single payment |
| MerchantAnalysis.SinglePaymentHasNoDefault | src/analysis/tasks.py:358-368 | for a single payment (installments = 1) or a null installments value, the default loss is 0 and a non-zero total gives a margin of exactly 25 |
| MerchantAnalysis.ProfitMargin | src/analysis/tasks.py:367-378 | the margin is null exactly when the total is 0; otherwise it is 13.55 for installments > 1 and 25 for a single payment or a null installments value |
| MerchantAnalysis.ProfitabilityOf | src/analysis/tasks.py:361-379 | within half a cent: gross profit is a quarter of the total, the loss is 11.45% of the total (exactly 0 without installments), and net profit is 13.55% or 25% of the total; the margin is as ProfitMargin states |
| MerchantAnalysis.AnalyzeInstallmentProfitability | src/analysis/tasks.py:361-379 | one profitability row per installment group, in the same order |
| MerchantAnalysis.ThreeInstallmentExample | src/analysis/tasks.py:361-379 | a group of 1000.00 paid in 3 installments gives gross 250.00, loss 114.50, net 135.50 and margin 13.55 |
| MerchantAnalysis.BusinessRecommendationsOf | src/analysis/tasks.py:266-324 | the five reports are exactly top_cities, top_categories, monthly_trends, hourly_patterns and the profitability of the installment analysis; so top cities and categories have at most 5 rows, hourly patterns at most 24, monthly and hourly counts add up to the number of transactions, every installment group present has a row, and every non-null margin is 13.55 or 25 |

## Left out

- The cleaning step is not part of this model. `src/data/loader.py` fills a missing merchant name with the merchant id and a missing category with "Unknown category". Here its guarantees are the row type: both fields are plain strings.
- Timestamp decomposition (`year`, `month`, `hour` of `purchase_date`) and time zones: rows arrive with these fields already extracted.
- The month label is built by casting "year-month-01" to a date. For a year below 1000 that cast may fail in Spark. The model always renders a zero-padded four-digit year.
- Amounts are exact reals, so double arithmetic is not modelled.
  - `Formats.Round2` rounds the exact value HALF_UP, not the nearest binary double.
  - Sums are exact, where Spark's double sums depend on summation order, which varies with partitioning. `Grouping.AggregatesOfPermutedRows` proves the exact aggregates do not depend on row order; the rounding differences of double addition are not modelled.
- Amounts are never null here. A null `purchase_amount` would be skipped by `sum` and `avg` but counted by `count(*)`; the model does not represent it.
- Spark's order among rows with equal sort keys is unspecified. `Ordering.SortBy` fixes one order (a stable insertion sort), and the contracts only promise the order on the sort keys.
- The same holds for which tied rows `limit(5)` keeps at the cut. `MerchantAnalysis.TopBySales` states only what holds for any choice.
- The two Task 4 results have no `orderBy`. The model returns them in order of first appearance of their keys, and their contracts promise no order.
- Session setup, caching, printing, file and Hive writes, the command line, and the display arithmetic of the job runner are I/O. They are not part of this model.
- MerchantAnalysis.AverageOfGroupAtLeastOneCent: same half-cent bound as the next line, for the same reason.
- MerchantAnalysis.PositiveAmountsGivePositiveAverages: requires every amount to be at least 0.005 rather than merely positive, because a positive amount below half a cent rounds to an average of 0.00.
- MerchantAnalysis.ProfitabilityOf: states the rounded money columns only to within half a cent of their exact values; the margin column is stated exactly.
- MerchantAnalysis.RenderMonthlyTop: states the rounded purchase total only to within half a cent of the exact sum.
- MerchantAnalysis.TopMerchantsByCityMonth: renders through `RenderMonthlyTop`, so it too states the rounded purchase total only to within half a cent.
- MerchantAnalysis.TopMerchantsByCityMonthChronological: the same half-cent reservation, for the same reason.
- MerchantAnalysis.AtMostFiveMerchantsWithoutTies: the bound of 5 rows per city and month holds only without ties. With tied (total, sales) pairs more than 5 merchants can share ranks ≤ 5; in general only the bound on distinct ranks (`MerchantAnalysis.AtMostFiveRanksPerMonthCity`) holds.
- MerchantAnalysis.AtMostThreeHoursWithoutTies: the same reservation for 3 rows per category; in general only `MerchantAnalysis.AtMostThreeRanksPerCategory` holds.
- MerchantAnalysis.TopMerchantsByCity: the promise of at most 10 merchants per city holds only without ties (`MerchantAnalysis.AtMostTenMerchantsWithoutTies`, `MerchantAnalysis.AtMostTenRowsWithoutTies`). Merchants with tied transaction counts share a rank, so a city can list more than 10 merchants of rank ≤ 10.

## Findings

| source | as written | input that shows it | evidently intended | confidence | as-written member | corrected member |
|---|---|---|---|---|---|---|
| src/analysis/tasks.py:95 | The `orderBy("year", "month", "city_id", "rank")` runs after the select at lines 81-94, which names the "MMM yyyy" label `month`. So within a year, rows are ordered by the label text. | One transaction in January 2023 and one in February 2023: the "Feb 2023" row is listed before the "Jan 2023" row. | Calendar order: year, then month number. `monthly_trends` at line 294 sorts this way. | high; not executed | MerchantAnalysis.FebruaryListedBeforeJanuary | MerchantAnalysis.RankedMonthlyMerchantsChronological |
