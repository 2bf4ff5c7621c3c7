# Time-trending chart: date bucketing and axis alignment

This project models the core of the Jira plugin's time-trending chart. That core has
three parts:

- It puts raw `(epoch-millisecond date, count)` observations into buckets on a day axis.
- It sums the counts per axis day.
- It picks the axis range and the tick walk. When the data range is not negative,
  the chart's upper bound ("today") is a tick. Every bucket lies on the tick
  lattice, and every bucket after the start of the walk is a tick.

Instants are integer milliseconds. Days are read in one fixed zone where every day
lasts `MsPerDay = 86400000` ms.

The model has four modules:

- `JavaMath` (`java_math.dfy`): Java's truncating `/` and `%` for positive divisors,
  next to Dafny's Euclidean ones, plus small lemmas about multiples.
- `DateUtil` (`date_util.dfy`): `removeDateTime` and `getOffsetDate`. It also has the
  predicate `OnLattice(anchor, days, t)`, which says that `t` is a whole number of
  `days`-day steps away from `anchor`.
- `ChartGenerator` (`chart_generator.dfy`):
  - `getLowerBound`;
  - the generator's range fields and axis limits (class `TimeTrendingChartGenerator`);
  - the custom date axis with its tick walk (class `IntervalDateAxis`). Its
    `previousStandardDate` loop is a method proved against the closed form `PrevTick`.
- `TrendingChart` (`trending_chart.dfy`):
  - `getAxisDate`;
  - the counting loop of `generateChart`, as the method `AggregateCounts` over a
    `map<int, int>`, proved against the fold `Aggregate`;
  - the data-preparation part of `generateChart`.

Three points of the code's behaviour shape the model:

- The code does not validate its parameters:
  - a zero interval makes Java throw `ArithmeticException`;
  - a negative data range is not rejected: `getLowerBound` pads it like any other
    (-3 on a 7-day interval gives a 7-day span; -14 puts the lower bound 14 days after
    the upper bound, `ChartGenerator.NegativeRangeExample`).

  The model requires `dateInterval > 0`. `GetLowerBound` accepts any `dataRange`, and
  the span lemmas assume `dataRange >= 0`.
- `getAxisDate` uses Java's truncating `%`, whose result takes the sign of the
  dividend. A date whose day is after the upper bound therefore moves backward,
  onto the latest tick on or before its day (`AxisDateWindowFuture`,
  `AxisDateIsPreviousTick`). It does not move forward, and it never lands before
  the upper bound.
- The `Math.ceil` in `getAxisDate` is applied to a quotient that Java's long division
  has already truncated, so it changes nothing (`JavaMath.Div`).

## Model

| member | source | states |
|---|---|---|
| `DateUtil.RemoveDateTime` | src/main/java/plugin_suite/charts/TimeTrendingChartGenerator.java:177-184 | the result is a midnight, at or before the instant and less than one day before it |
| `DateUtil.RemoveDateTimeUnique` | src/main/java/plugin_suite/charts/TimeTrendingChartGenerator.java:177-184 | the start of the day is the only midnight in the day's first 86400000 ms, so the contract above determines the result |
| `DateUtil.RemoveDateTimeIdempotent` | src/main/java/plugin_suite/charts/TimeTrendingChartGenerator.java:177-184 | removing the time of day twice gives the same instant as removing it once |
| `DateUtil.MidnightFixed` | src/main/java/plugin_suite/charts/TimeTrendingChartGenerator.java:177-184 | a midnight is unchanged by removing the time of day |
| `DateUtil.RemoveDateTimeMonotonic` | src/main/java/plugin_suite/charts/TimeTrendingChartGenerator.java:177-184 | a later instant never starts an earlier day |
| `DateUtil.RemoveDateTimeShift` | src/main/java/plugin_suite/charts/TimeTrendingChartGenerator.java:177-199 | shifting by whole days and removing the time of day commute |
| `DateUtil.GetOffsetDate` | src/main/java/plugin_suite/charts/TimeTrendingChartGenerator.java:197-199 | a negative offset moves earlier, a zero offset stays put, a positive one moves later, and a midnight stays a midnight |
| `DateUtil.OffsetAdditive` | src/main/java/plugin_suite/charts/TimeTrendingChartGenerator.java:197-199 | offsets compose by adding their day counts; offset 0 is the identity; the shift is exactly `offset` days in ms |
| `JavaMath.Div` | src/main/java/plugin_suite/charts/TimeTrendingChart.java:129 | Java long division truncates toward zero: the remainder left over lies in `[0, b)` for a non-negative dividend and in `(-b, 0]` for a negative one |
| `JavaMath.Rem` | src/main/java/plugin_suite/charts/TimeTrendingChart.java:132 | Java's `%` takes the sign of the dividend and stays below `b` in magnitude; the dividend minus the remainder is a multiple of `b`; it equals Euclidean `%` on non-negative dividends and its mirror on negative ones |
| `ChartGenerator.GetLowerBound` | src/main/java/plugin_suite/charts/TimeTrendingChartGenerator.java:164-169 | the two bounds differ by a whole number of intervals, of either sign, for any data range; a midnight upper bound gives a midnight lower bound |
| `ChartGenerator.LowerBoundSpan` | src/main/java/plugin_suite/charts/TimeTrendingChartGenerator.java:164-169 | for `dataRange >= 0` the span is at least `dataRange` days and less than `dataRange + dateInterval` days; it is exactly `dataRange` days if and only if `dataRange % dateInterval == 0` |
| `ChartGenerator.LowerBoundSpanIsSmallest` | src/main/java/plugin_suite/charts/TimeTrendingChartGenerator.java:150-169 | every multiple of the interval that covers `dataRange` days is at least as long as the span, so the span is the smallest such multiple |
| `ChartGenerator.LowerBoundNotAfterUpperBound` | src/main/java/plugin_suite/charts/TimeTrendingChartGenerator.java:166-168 | with `dataRange >= 0` the lower bound is not after the upper bound |
| `ChartGenerator.LowerBoundExample` | src/main/java/plugin_suite/charts/TimeTrendingChartGenerator.java:164-169 | 30 days on a 7-day axis ending 2024-01-31 give a 35-day span, starting 2023-12-27 |
| `ChartGenerator.NegativeRangeExample` | src/main/java/plugin_suite/charts/TimeTrendingChartGenerator.java:164-169 | a negative data range is padded, not rejected: -3 days on a 7-day axis gives a lower bound 7 days before the upper bound, and -14 days gives one 14 days after it |
| `ChartGenerator.TickAnchor` | src/main/java/plugin_suite/charts/TimeTrendingChartGenerator.java:219 | the walk starts at the midnight of the day one interval before `firstDate` |
| `ChartGenerator.TickAnchorOfMidnight` | src/main/java/plugin_suite/charts/TimeTrendingChartGenerator.java:219 | when `firstDate` is a midnight, the walk starts exactly one interval before it (`k = -1` on the lattice through `firstDate`) |
| `ChartGenerator.PrevTick` | src/main/java/plugin_suite/charts/TimeTrendingChartGenerator.java:218-229 | closed form of the tick walk: a lattice point at or after the anchor; if the date is after the anchor, the tick is before the date and at most one interval before it; otherwise it is the anchor |
| `ChartGenerator.PrevTickUnique` | src/main/java/plugin_suite/charts/TimeTrendingChartGenerator.java:218-229 | exactly one lattice point has those properties, so they determine the tick |
| `ChartGenerator.TickIsFixedByNext` | src/main/java/plugin_suite/charts/TimeTrendingChartGenerator.java:232-234 | for a lattice point after the anchor, the previous tick is one interval earlier, so the next tick is the point itself |
| `ChartGenerator.IntervalDateAxis.constructor` | src/main/java/plugin_suite/charts/TimeTrendingChartGenerator.java:211-215 | stores the first date and the interval |
| `ChartGenerator.IntervalDateAxis.PreviousStandardDate` | src/main/java/plugin_suite/charts/TimeTrendingChartGenerator.java:218-229 | the loop terminates, with `date - standardDate` decreasing; the result is on the lattice at or after the anchor `TickAnchor(firstDate, interval)`, the midnight of the day one interval before `firstDate`; if the date is after the anchor, the result `p` satisfies `p < date <= p + interval`, otherwise it is the anchor; it equals `PrevTick` |
| `ChartGenerator.IntervalDateAxis.NextStandardDate` | src/main/java/plugin_suite/charts/TimeTrendingChartGenerator.java:232-234 | the result is `PrevTick + interval`; it is on the lattice and never before the date; if the date is after the anchor, the result is less than one interval after the date |
| `ChartGenerator.TimeTrendingChartGenerator.constructor` | src/main/java/plugin_suite/charts/TimeTrendingChartGenerator.java:53-74 | stores the interval, the data range and the upper bound, and sets the lower bound to `getLowerBound` of them |
| `ChartGenerator.TimeTrendingChartGenerator.MinimumDate` | src/main/java/plugin_suite/charts/TimeTrendingChartGenerator.java:141 | the axis minimum is exactly one day before the lower bound, and a midnight when the lower bound is one |
| `ChartGenerator.TimeTrendingChartGenerator.MaximumDate` | src/main/java/plugin_suite/charts/TimeTrendingChartGenerator.java:142 | the axis maximum is exactly one day after the upper bound, and a midnight when the upper bound is one |
| `ChartGenerator.TimeTrendingChartGenerator.CreateAxis` | src/main/java/plugin_suite/charts/TimeTrendingChartGenerator.java:121 | the new date axis walks from the lower bound with the chart's date interval |
| `ChartGenerator.AxisLimitsContainBounds` | src/main/java/plugin_suite/charts/TimeTrendingChartGenerator.java:140-142 | axis minimum < lower bound <= upper bound < axis maximum, so both bounds lie strictly inside the axis range |
| `ChartGenerator.BoundsAreTicks` | src/main/java/plugin_suite/charts/TimeTrendingChartGenerator.java:150-169 | for a midnight upper bound and `dataRange >= 0`, `nextStandardDate` on the axis built from the lower bound maps both the lower and the upper bound to themselves, so today's date is a tick |
| `TrendingChart.GetAxisDate` | src/main/java/plugin_suite/charts/TimeTrendingChart.java:126-136 | the axis date is a midnight |
| `TrendingChart.DayDifferenceExact` | src/main/java/plugin_suite/charts/TimeTrendingChart.java:128-129 | with a midnight upper bound the truncated day difference is exact, so `Math.ceil` has nothing to round |
| `TrendingChart.AxisDateOnLattice` | src/main/java/plugin_suite/charts/TimeTrendingChart.java:116-136 | for every date, `upperBound - axisDate` is a multiple of `dateInterval` days |
| `TrendingChart.AxisDateWindowPast` | src/main/java/plugin_suite/charts/TimeTrendingChart.java:127-135 | a day on or before the upper bound maps into `[day, day + dateInterval - 1]` and not past the upper bound |
| `TrendingChart.AxisDateWindowFuture` | src/main/java/plugin_suite/charts/TimeTrendingChart.java:128-135 | a day after the upper bound maps into `[day - dateInterval + 1, day]` and not before the upper bound |
| `TrendingChart.AxisDateIsNextTick` | src/main/java/plugin_suite/charts/TimeTrendingChart.java:127-135 | for a day on or before the upper bound, the axis date is the earliest lattice point on or after the day |
| `TrendingChart.AxisDateIsPreviousTick` | src/main/java/plugin_suite/charts/TimeTrendingChart.java:128-135 | for a day after the upper bound, the axis date is the latest lattice point on or before the day |
| `TrendingChart.AxisDateFixedPoints` | src/main/java/plugin_suite/charts/TimeTrendingChart.java:127-135 | an instant is its own axis date if and only if it is a midnight on the lattice |
| `TrendingChart.AxisDateIdempotent` | src/main/java/plugin_suite/charts/TimeTrendingChart.java:127-135 | bucketing an axis date again leaves it unchanged; the upper bound is its own axis date |
| `TrendingChart.AxisDateExample` | src/main/java/plugin_suite/charts/TimeTrendingChart.java:126-136 | with interval 7 and upper bound 2024-01-31, 2024-01-10 maps to itself and 2024-01-11 (afternoon) maps to 2024-01-17 |
| `TrendingChart.AxisDateIsAxisTick` | src/main/java/plugin_suite/charts/TimeTrendingChart.java:53-90 | every axis date is on the tick lattice through the generator's lower bound, and past the walk's start it is its own next tick |
| `TrendingChart.Zip` | src/main/java/plugin_suite/charts/TimeTrendingChart.java:49-62 | exactly `min(dates.size, counts.size)` pairs, pair `i` being `(dates[i], counts[i])` |
| `TrendingChart.ZipIgnoresTail` | src/main/java/plugin_suite/charts/TimeTrendingChart.java:49-50 | trailing entries of the longer list do not change the pairs |
| `TrendingChart.AddCount` | src/main/java/plugin_suite/charts/TimeTrendingChart.java:73-77 | one `containsKey`/`put` step: adds the day as a key, adds the count to its old total (or starts from the count alone), and leaves other days unchanged |
| `TrendingChart.AggregateKeys` | src/main/java/plugin_suite/charts/TimeTrendingChart.java:60-78 | the map's keys are exactly the axis dates of the processed dates |
| `TrendingChart.AggregateValues` | src/main/java/plugin_suite/charts/TimeTrendingChart.java:73-77 | each value is the sum of the counts whose dates map to that key; a day without a key has no counts |
| `TrendingChart.AggregateTotal` | src/main/java/plugin_suite/charts/TimeTrendingChart.java:60-78 | the map's values add up to the sum of the processed counts |
| `TrendingChart.CountOnPermutation` | src/main/java/plugin_suite/charts/TimeTrendingChart.java:73-77 | a day's total depends only on the multiset of pairs, not on their order |
| `TrendingChart.AggregatePermutation` | src/main/java/plugin_suite/charts/TimeTrendingChart.java:60-78 | permuting the input pairs yields the same map |
| `TrendingChart.AggregateCounts` | src/main/java/plugin_suite/charts/TimeTrendingChart.java:49-78 | the loop over the first `min` positions yields the fold `Aggregate` of the zipped pairs; its keys are their axis dates, each value is the sum of that day's counts, and the values add up to the sum of the processed counts |
| `TrendingChart.GenerateChart` | src/main/java/plugin_suite/charts/TimeTrendingChart.java:44-93 | the upper bound is `removeDateTime(now)`; the series is the aggregated map; the generator has the same interval and upper bound; every series day is on the tick lattice through the lower bound |

## Left out

- Rendering is left out: building the JFreeChart `TimeSeries` and dataset, `createLineChart`'s axis styling, `ChartHelper` generation, the image map, base64 encoding and the returned `Chart`. These are calls into JFreeChart and Jira. The aggregated map stands for the series, so the ascending order in which the `TimeSeries` keeps its days is not modelled.
- Titles, labels, series name, width, height and the i18n helper only feed the rendering.
- Time zones, daylight saving time and `GregorianCalendar` field handling are replaced by one fixed zone with 86400000-ms days. `removeDateTime` is flooring to a multiple of a day. The JFreeChart `Day` key built from day, month and year is the axis date's midnight instant, which identifies the same day in that zone.
- AggregateCounts: JFreeChart's `Day` exists only for years 1900-9999. An axis day outside that range makes the Java throw `IllegalArgumentException`, while the model keys it like any other day.
- The current time (`new Date()`) is the parameter `now` of `GenerateChart`.
- The shared static `Calendar` that `removeDateTime` reuses is a thread-safety artefact and is not modelled. The model's functions have no shared state.
- Java `int`/`long` overflow of summed counts and of millisecond arithmetic is not modelled. Integers are unbounded.
- `dateInterval <= 0` is excluded by preconditions:
  - zero makes Java throw `ArithmeticException` (always in `getLowerBound`; in `getAxisDate` once a pair is processed);
  - a negative interval makes the `previousStandardDate` loop step backward forever once the date is after `firstDate`.
- JavaMath.Div: modelled for positive divisors only. The chart code divides only by the length of a day.
- JavaMath.Rem: modelled for positive divisors only. The chart code takes remainders only by a positive date interval.
- The `DateTickUnit` parameter of `previousStandardDate` and `nextStandardDate` is ignored by the source, so it is dropped.
- How JFreeChart's `DateAxis` calls the two tick methods is not modelled. The model states what each call returns.
- The REST resources, the JAXB models and the tests are outside the charting core.
