# Salary visualizer: the aggregation layer

The salary visualizer draws D3 charts of data-science salaries: a world map
coloured by each country's average salary, and a per-country page with bar
charts, a box plot and a line chart. This project models the part of it that
turns flat salary records into the series those charts draw, and proves what
each series means.

- **Group average.** `d3.group` followed by `d3.mean` gives one entry per
  distinct key, in first-seen order, holding the mean salary of that key's
  records.
- **Top-N ranking.** The group averages by job category are sorted stably,
  highest value first, and cut with `slice(0, topN)`.
- **Five-number summary.** For the box plot, each group's salaries are sorted
  ascending. Q1, median and Q3 are the R-7 quantiles: index `p·(n−1)`,
  interpolated linearly. Min and max are the two end elements.
- **Line chart.** Records are grouped by work setting. Each group is rolled up
  into the mean salary per work year, sorted by year. The axis domains are the
  sorted distinct years and the largest point value.
- **Selection.** The country page keeps two sets: selected job categories and
  selected company sizes. A click toggles one key. The records are then
  filtered, country first, then by each selection that is not empty.
- **Country map.** A two-pass loop over two `Map`s sums salaries and counts
  records per ISO code. It then overwrites each sum with the average while
  tracking the smallest and largest average from the ±Infinity sentinels, and
  takes the midpoint of the two for the diverging colour scale. `script.js`
  and `js/main.js` carry the same code; one model (`CountryMap`) serves both.

## Modules

| module | file | contents |
|---|---|---|
| `Collections` | collections.dfy | `Option`, `Distinct`, subsequences, `Filter` (JavaScript `Array.prototype.filter`) and its laws |
| `Grouping` | grouping.dfy | `d3.group`: first-seen keys (`Keys`), groups (`Members`), first positions |
| `Sorting` | sorting.dfy | a stable sort by a numeric score (`Array.prototype.sort` with a difference comparator) |
| `Stats` | stats.dfy | `Sum`, `Mean`, `Least`/`Greatest`, `Maximum` (`d3.max`), R-7 `QuantileSorted` and `Quantile` |
| `Records` | records.dfy | the salary record and its key columns |
| `BarChart` | barchart.dfy | `GroupAverage`, `Slice`, `TopN`, `BarChartData` |
| `BoxPlot` | boxplot.dfy | `Summarize`, `BoxPlotData` |
| `LineChart` | linechart.dfy | `SeriesPoints`, `LineSeries`, `LineDomains` with its nested loops |
| `Selection` | selection.dfy | `Toggled`, `Selected`, the `Selection` class holding both sets |
| `CountryMap` | countrymap.dfy | the JavaScript number cases (`Extended`), the two passes, `Midpoint`, `ColourDomain` |

Where the code mutates state it is modelled imperatively:
- The selection sets are the fields of a class. Its methods toggle them in place.
- The successive reassignments of `countryData` are a method.
- The nested `forEach` of the line chart is a pair of loops.
- Both passes of the map scan are loops over map-valued variables.

Each of these methods is proved against the pure functions that specify it.

## Model

| member | source | states |
|---|---|---|
| Collections.FilterSpec | js/countryInsights.js:148 | a filter keeps exactly the elements satisfying the predicate, each as often as the input has it, as a subsequence of the input |
| Collections.FilterFuse | js/countryInsights.js:148-156 | two successive filters keep exactly what one filter by the conjunction keeps |
| Grouping.Keys | js/countryInsights.js:249 | the group keys are exactly the keys occurring in the records, with no key twice |
| Grouping.KeysFirstSeen | js/countryInsights.js:249-252 | the groups come in the order in which their keys first occur in the records |
| Grouping.Members | js/countryInsights.js:249 | a group is non-empty exactly when its key occurs |
| Grouping.MembersSpec | js/countryInsights.js:249-252 | a group holds exactly the records carrying its key, with their multiplicities, in input order |
| Grouping.SingleGroup | js/countryInsights.js:249-252 | records that all share one key form a single group holding all of them |
| Records.Salaries | js/countryInsights.js:53 | the salary column has one value per record, in record order |
| Stats.MeanBounds | js/countryInsights.js:51-54 | the mean of a non-empty list lies between its least and greatest element |
| Stats.Maximum | js/countryInsights.js:559 | `d3.max` is undefined exactly for no values; otherwise it bounds every value and is one of them |
| Stats.AscendingEnds | js/countryInsights.js:368-369 | the first and last element of an ascending rearrangement are the least and greatest value |
| Stats.QuantileSorted | js/countryInsights.js:365-367 | the R-7 quantile is undefined exactly for no values |
| Stats.Quantile | js/countryInsights.js:365-367 | `d3.quantile` is undefined exactly for no values |
| Stats.QuantileSortedBounds | js/countryInsights.js:365-369 | every quantile of a sorted list lies between its first and its last element |
| Stats.QuantileSortedMonotone | js/countryInsights.js:365-367 | the quantile is monotone in `p`, so q1 <= median <= q3 |
| Stats.InterpolateBetween | js/countryInsights.js:365-367 | an interpolated quantile lies between the two order statistics around its position |
| Sorting.SortBySorted | js/countryInsights.js:56 | the sort returns a permutation of its input ordered by the comparator's score |
| Sorting.SortByStable | js/countryInsights.js:56 | the sort is stable: entries with the same score keep their input order |
| Sorting.SortedPrefixTies | js/countryInsights.js:56 | in any prefix of the sorted list, the entries of one score are a prefix of that score's entries in input order |
| Sorting.SortByIdentity | js/countryInsights.js:364 | sorting an already sorted list changes nothing |
| BarChart.GroupAverage | js/countryInsights.js:249-252 | one entry per distinct key |
| BarChart.GroupAverageEntry | js/countryInsights.js:249-252 | every entry is an occurring key paired with the mean salary of its group |
| BarChart.GroupAverageKeys | js/countryInsights.js:249-252 | a key has an entry if and only if it occurs in the records, and no key has two |
| BarChart.GroupAverageOrder | js/countryInsights.js:51-54 | entries come in first-seen key order |
| BarChart.GroupAverageMeans | js/countryInsights.js:51-54 | each value is the mean of a non-empty group and lies between its lowest and highest salary |
| BarChart.GroupAverageSingle | js/countryInsights.js:249-252 | records of one key give the single entry (key, mean of all salaries) |
| BarChart.Slice | js/countryInsights.js:56 | `slice(0, end)` is a prefix whose length is the end clamped to the list, a negative end counting from the length |
| BarChart.TopNSpec | js/countryInsights.js:56 | the top-N list descends by value, is a prefix of the stably sorted list, has the clamped length, is a sub-multiset of the input and all of it when N covers the input |
| BarChart.TopNStable | js/countryInsights.js:56 | tied entries of the top-N list are a prefix of that value's entries in input order |
| BarChart.TopNIdempotent | js/countryInsights.js:56 | ranking the top-N list again leaves it unchanged |
| BarChart.BarChartDataSpec | js/countryInsights.js:51-56 | the job-category chart has min(topN, number of categories) bars, highest first, distinct categories, each with its group's mean salary |
| BoxPlot.SummarizeSpec | js/countryInsights.js:363-371 | `values` is an ascending permutation of the group's salaries; min and max are its ends and the least and greatest salary; min <= q1 <= median <= q3 <= max |
| BoxPlot.SummarizeSingle | js/countryInsights.js:363-371 | a one-salary group has all five numbers equal to it |
| BoxPlot.QuartilesExample | js/countryInsights.js:365-367 | the R-7 quartiles of 10, 20, 30, 40 are 17.5, 25 and 32.5 |
| BoxPlot.SummarizeExample | js/countryInsights.js:363-371 | the summary of 10, 20, 30, 40 is q1 17.5, median 25, q3 32.5, min 10, max 40 |
| BoxPlot.BoxPlotDataSpec | js/countryInsights.js:353-371 | no records give no summaries; otherwise one summary per distinct key in first-seen order, each with the properties of `SummarizeSpec` |
| LineChart.LineSeries | js/countryInsights.js:523-529 | one series per distinct work setting |
| LineChart.SeriesPointsSpec | js/countryInsights.js:525-528 | one point per distinct year, strictly ascending by year, each valued at the mean salary of that year's records |
| LineChart.LineSeriesSpec | js/countryInsights.js:523-529 | the series follow the work settings in first-seen order; each point is the mean of one (setting, year) cell, one point per year of that setting, ascending |
| LineChart.Values | js/countryInsights.js:552 | the pushed values are the point values, in visiting order |
| LineChart.AllPointsSnoc | js/countryInsights.js:549-554 | visiting one more series appends its points |
| LineChart.VisitSeries | js/countryInsights.js:550-553 | the inner loop leaves the year set as the first-seen distinct years and the value list as all values of the points visited so far |
| LineChart.VisitStep | js/countryInsights.js:551-552 | one more point adds its year to the set exactly when it is new and pushes its value |
| LineChart.LineDomains | js/countryInsights.js:547-559 | `uniqueYears` is the sorted distinct years of all points, strictly ascending, one for each year that occurs; `yMax` is undefined exactly when there are no points, and otherwise bounds every point value and is one of them |
| LineChart.SortedYears | js/countryInsights.js:557 | sorting distinct years makes them strictly ascending, losing and adding none |
| LineChart.Extent | js/countryInsights.js:558 | `d3.extent` is undefined for no values; otherwise it is a pair of values bounding all of them |
| LineChart.ExtentOfAscending | js/countryInsights.js:558 | on the ascending years the x-domain is the first and the last year |
| Selection.Toggled | js/countryInsights.js:84-88 | a toggle flips the clicked key's membership and leaves every other key as it was |
| Selection.ToggleTwice | js/countryInsights.js:281-285 | toggling the same key twice restores the set |
| Selection.SelectedSpec | js/countryInsights.js:148-156 | a record is kept if and only if it is of the country and each non-empty selection contains its field; the result is a subsequence of the data, and the country's records when both selections are empty |
| Selection.SelectedOfCountry | js/countryInsights.js:185-193 | the filtered records are a subsequence of the country's records |
| Selection.Selection.constructor | js/countryInsights.js:17-19 | both selections start empty |
| Selection.Selection.ToggleJobCategory | js/countryInsights.js:84-88 | the job-category set is toggled at the key; the company-size set is untouched |
| Selection.Selection.ToggleCompanySize | js/countryInsights.js:281-285 | the company-size set is toggled at the key; the job-category set is untouched |
| Selection.Selection.FilteredData | js/countryInsights.js:148-156 | the three successive filters yield exactly the selected records of the country |
| Selection.Selection.ClickJobCategory | js/countryInsights.js:84-96 | after the toggle, the redraw gets the country's records when no category is selected and the selected records otherwise |
| Selection.Selection.ClickCompanySize | js/countryInsights.js:281-293 | after the toggle, the redraw gets the country's records when no company size is selected and the selected records otherwise |
| CountryMap.Midpoint | script.js:67 | between finite bounds lo <= hi the midpoint is finite and lies between them; on the untouched sentinels it is NaN |
| CountryMap.ScanStep | script.js:39-50 | one more record raises its own country's count by one and sum by its salary, and no other country's |
| CountryMap.OrderStep | script.js:43-46 | a country is appended to the maps' order exactly when it was not seen before |
| CountryMap.CountStep | script.js:49 | after one more record every count is the number of that country's records |
| CountryMap.SumStep | script.js:48 | after one more record every sum is the salary sum of that country's records |
| CountryMap.TallyRecord | script.js:40-49 | one iteration of the first pass keeps the tally: order, shared key set, counts and sums |
| CountryMap.SumAndCount | script.js:36-50 | both maps have exactly the ISO codes of the records as keys; each count is that country's number of records, at least one; each sum is their salary sum |
| CountryMap.AverageInPlace | script.js:52-60 | every entry becomes sum / count and no key changes; the sentinels stay with no entries; otherwise the bounds are finite, bound every average and are attained |
| CountryMap.ColourDomain | js/main.js:27-58 | the map holds exactly the countries of the records, each with its mean salary, equal to the grouped average and within that country's salary range; no records keep the sentinels and make the midpoint NaN; otherwise the bounds are attained and the midpoint lies between them |

## Left out

- Drawing is not modelled: the DOM and SVG, scales, axes, transitions, tooltips, legends, layout arithmetic and colour interpolation. This includes the colour scales and the legend's tick range (script.js:117).
- Loading the CSV and GeoJSON files and the promise callbacks are not modelled; the records are an in-memory sequence.
- `getUrlParameter`, the page titles and the navigation on a map click are browser behaviour and are not modelled; the country code is a parameter.
- String-to-number coercion (`+d[field]`) is not modelled: salaries and years are already-parsed integers. So neither is the library mean skipping NaN values; the mean is undefined for no values, and no caller asks it for any.
- Floating point is not modelled: sums, means and quantiles are exact reals. `CountryMap.Extended` covers only the infinities and NaN that the map scan can produce.
- LineChart.SeriesPoints: years are grouped as integers. The source groups the year column's strings and converts each key with `+key`, which gives the same points when every year is written in one decimal form.
- Which charts each redraw replaces is not modelled: the update and reset paths differ in which SVGs they remove and redraw. What is modelled is the records each redraw is given.
- The y-domain of the bar charts and the box plot (`d3.max` of the bars or the whisker ends) is only drawing. `Stats.Maximum` models the line chart's use of it.
- Stats.Quantile: `d3.quantile` selects with quickselect on a copy. The model states it as the R-7 quantile of the values sorted ascending, which picks the same two order statistics.

## Notes on the code

- Filter and toggle follow the code as written. A click on a bar of either grouped bar chart toggles `selectedCompanySizes`, including on the chart grouped by experience level, whose keys are then matched against the company-size column.
- When a toggle leaves its own set empty, the page is redrawn with all of the country's records. The other selection is not consulted then (`ClickJobCategory`, `ClickCompanySize`).
- `slice(0, topN)` with a negative `topN` counts back from the length, as JavaScript does. `Slice` models that case, although the only caller passes 5.
