# gtfs-validator shape checks, rounding and calendar arithmetic in Dafny

This project models the core of the gtfs-validator command-line tool: the
`ValidateShapes` pass, which sorts the points of every shape in a GTFS feed by
sequence number and checks them one by one, and the numeric helpers it and the
rest of the tool rely on, all from `math.go`. Those helpers are the rounding of
a float to a number of decimals, the percentage difference, metre-to-kilometre
conversion, leap years, day of year, day differences between dates, the
feed-activity window, the weekday lookup and the fixed-width time and date
stamps.

Modules, one file each:

- `Wrappers` (`wrappers.dfy`): `Option`, used for the Go run-time panics (an index out of range).
- `Rounding` (`rounding.dfy`): `round`, `toFixed`, `PercentDiff`, `toKm`, over exact reals.
- `Calendar` (`calendar.dfy`): `isLeapYear`, `DayOfYear`, `daysSince`, `inDateRange`, `inWeekdayRange`, with Go's int16 wrap-around and truncating division written out. Beside the as-written functions it has corrected ones (`DayOfYearIntended`, `DaysSinceIntended`, `InDateRangeIntended`) for the two defects listed under Findings.
- `Stamps` (`stamps.dfy`): `Timestamp` and `Datestamp`, on a model of Go's `%0Nd` verb.
- `ShapeSort` (`shape_sort.dfy`): shape points, the `BySequence` comparator, and what any result of the unstable `sort.Sort` has in common.
- `ShapeValidation` (`validate_shapes.dfy`): the `ValidateShapes` loop.

In `ShapeValidation` each diagnostic that the Go code writes to the report file
is a `Finding` value. A shape is scanned by a fold. `StateBefore` is the
accumulator before each point. `FindingsAt` is what a point reports.
`ShapeFindings` is the report of a whole shape. The method `ScanShape` is the
Go loop itself (a counter from 0 and the running totals), proved equal to the
fold. `ValidateShapes` sorts each shape, scans it, and returns one report per
shape. The geometry library calls (UTM projection, square root, the spherical
and Haversine distances) are the fields of a `Geometry` parameter. The model
applies the source's own rounding around them.

## Model

| member | source | states |
|---|---|---|
| Rounding.Trunc | math.go:39 | Go's `int(f)`: the result has the sign of the input and is the largest integer not greater in magnitude, so it is less than one away from the input, toward zero. |
| Rounding.Copysign | math.go:39 | `math.Copysign(m, x)` for a magnitude m: the result has magnitude m, and it is non-positive for negative x and non-negative otherwise. |
| Rounding.Round | math.go:38-40 | The result is the integer nearest the input, and a tie goes away from zero: within one half above for non-negative inputs and within one half below for negative ones. |
| Rounding.RoundNegate | math.go:38-40 | Rounding is symmetric: round(-x) = -round(x). |
| Rounding.RoundError | math.go:38-40 | The rounded value is never more than one half from the input. |
| Rounding.RoundInteger | math.go:38-40 | Integers round to themselves. |
| Rounding.RoundMonotone | math.go:38-40 | Rounding preserves order. |
| Rounding.RoundHalfAwayFromZero | math.go:38-40 | k + 1/2 rounds to k + 1 and -(k + 1/2) to -(k + 1). |
| Rounding.ScaleProduct | math.go:43-44 | Shifting by p decimal places is multiplication and division by 10^p. |
| Rounding.ScaleInverse | math.go:43-44 | Shifting up then down, or down then up, by p places returns the input. |
| Rounding.ToFixed | math.go:42-45 | The result is a whole number of units of the p-th decimal: shifted left by p places it is exactly the rounded shift of the input. |
| Rounding.ToFixedZero | math.go:42-45 | Zero stays zero at every precision. |
| Rounding.ToFixedIdempotent | math.go:42-45 | Rounding an already rounded value to the same precision changes nothing. |
| Rounding.ToFixedNegate | math.go:42-45 | toFixed commutes with negation. |
| Rounding.ToFixedError | math.go:42-45 | toFixed(x, p) is within half a unit of the p-th decimal place of x. |
| Rounding.HalfUnit | math.go:42-45 | That half unit is 0.5 / 10^p. |
| Rounding.ToFixedMonotone | math.go:42-45 | toFixed preserves order. |
| Rounding.GuardedDivision | math.go:49-52 | A reference that does not round to zero is not zero, so the division by it is defined. |
| Rounding.PercentDiff | math.go:47-55 | The result is 0 when the reference rounds to 0 at the precision, and 0 when the value equals the reference. |
| Rounding.PercentDiffError | math.go:47-55 | When the guard passes, the result is the exact relative difference in percent, up to half a unit of the last decimal. |
| Rounding.PercentDiffSign | math.go:47-55 | A value at or above a positive reference never gives a negative percentage. |
| Rounding.ToKm | math.go:57-59 | Zero metres is zero kilometres. |
| Rounding.ToKmError | math.go:57-59 | The result is metres / 1000 up to half a unit of the last kept decimal. |
| Calendar.Wrap16 | math.go:111 | int16 subtraction: the value is kept when it fits, and otherwise differs from the true difference by a multiple of 2^16. |
| Calendar.GoDiv | math.go:112 | Go's `/` on int: the division identity with a remainder smaller than the divisor that has the sign of the dividend. |
| Calendar.GoDivNegate | math.go:112 | Truncating division commutes with negation. |
| Calendar.GoDivDiffersFromEuclidean | math.go:112 | -1 / 4 is 0 in Go, where the Euclidean quotient is -1. |
| Calendar.IsLeapYear | math.go:94-96 | A year is leap exactly when it is a Gregorian leap year that is not divisible by 400. |
| Calendar.LeapYearMissesFourHundredRule | math.go:94-96 | So 2000 is not leap though it is a Gregorian leap year; 2024 is leap and 1900 is not. |
| Calendar.DaysBeforeMonthIsCumulative | math.go:100 | Entry k of the table is the number of days in the first k months of a common year, except entry 8, which is one short. |
| Calendar.DaysBeforeMonthTypo | math.go:100 | Entry 8 of the table is 242 where 243 days precede September, so July 31 and August 1 get the same day of year, 243. |
| Calendar.DayOfYear | math.go:98-106 | As written: defined exactly for months 0 to 11 (December panics); its value counts the days to the end of the given month, plus the day, plus the leap day from month 3 on, less one in month 8. |
| Calendar.DecemberIsOutOfBounds | math.go:101 | Month 12 indexes past the end of the table. |
| Calendar.DayOfYearMonthShift | math.go:101 | As written, January 1 is day 32, the count goes backwards from January 31 to February 1, and March 31 and April 1 get the same number. |
| Calendar.DayOfYearAgainstIntended | math.go:98-106 | For months 1 to 11 the lookup as written is the intended day of year plus the length of the given month in a common year, less one in August. |
| Calendar.DayOfYearIntended | math.go:98-106 | The corrected lookup is defined exactly for months 1 to 12. |
| Calendar.DayOfYearIntendedStartsAtOne | math.go:98-106 | The corrected day of year of January 1 is 1. |
| Calendar.DayOfYearIntendedCountsDays | math.go:98-106 | Each next day of the same year has a corrected day of year one higher. |
| Calendar.DayOfYearIntendedEndsYear | math.go:98-106 | The last valid day of a year is December 31, day 365, or 366 in a leap year. |
| Calendar.DaysApart | math.go:111-112 | Given the two days of year, the difference plus 365 days per year of difference and one per four years. The year difference is taken in int16 and divided by 4 with truncation. |
| Calendar.DaysSince | math.go:108-114 | As written: defined exactly when both months are 0 to 11, and then the days-apart arithmetic applied to the two table lookups. |
| Calendar.DaysSinceSelf | math.go:108-114 | A date is zero days from itself. |
| Calendar.DaysSinceSameYear | math.go:108-114 | Within one year, the result is the difference of the two `DayOfYear` values. |
| Calendar.DaysSinceAntisymmetric | math.go:108-114 | Swapping the dates negates the result while the year difference fits an int16. |
| Calendar.DaysSinceTruncatesTowardZero | math.go:111-112 | A start one year after the end gives -365, not -366: the four-year term truncates toward zero. |
| Calendar.DaysSinceAcrossMonthEnds | math.go:108-114 | As written, 2023-02-01 is -2 days after 2023-01-31, and 2023-08-01 is 0 days after 2023-07-31. |
| Calendar.InDateRange | math.go:116-118 | As written: defined exactly when all three months are 0 to 11, and then true exactly when today is fewer days after the start than the end is. |
| Calendar.InDateRangeExcludesEnd | math.go:116-118 | The end date itself is never in range. |
| Calendar.InDateRangeSameYear | math.go:116-118 | Within one year, the answer is whether today's `DayOfYear` is below the end's, whatever the start. |
| Calendar.InDateRangeHasNoLowerBound | math.go:116-118 | A June-to-September feed counts as active on January 5 of the same year. |
| Calendar.InDateRangeAfterEnd | math.go:116-118 | As written, a feed ending 2023-01-31 is still active on 2023-02-01, and a December end date has no answer (Go panics). |
| Calendar.DaysSinceIntended | math.go:108-114 | The corrected day difference is defined exactly when both months are 1 to 12, and applies the same arithmetic to the corrected days of year. |
| Calendar.DaysSinceIntendedNextDay | math.go:108-114 | With the correction, the next day of the same year is exactly one day later. |
| Calendar.InDateRangeIntended | math.go:116-118 | The corrected activity check is defined exactly for months 1 to 12, and compares the corrected day differences. |
| Calendar.InDateRangeIntendedStopsAtEnd | math.go:116-118 | With the correction, the day after the end of a range within one year is outside it. |
| Calendar.InWeekdayRange | math.go:120-122 | Defined exactly for weekdays 0 to 6, and then the table entry at that weekday. |
| Calendar.InWeekdayRangeIsMembership | math.go:120-122 | The table built from a set of service weekdays answers membership in that set. |
| Stamps.Decimal | math.go:124-132 | The decimal text of a non-negative int is non-empty digits that read back as the number, with no leading zero. |
| Stamps.DecimalFits | math.go:124-132 | The text fits in w characters exactly when the number is below 10^w. |
| Stamps.PadDigits | math.go:124-132 | Zero-padding to width w keeps the value and makes the text at least w long. |
| Stamps.ZeroPad | math.go:124-132 | `%0Nd`: the text of a non-negative value reads back as the value and is max(N, its digit count) long. A negative value gets a leading '-' followed by digits that read back as its magnitude, and the text is max(N, digit count + 1) long, so -5 at width 2 is "-5". |
| Stamps.Timestamp | math.go:124-127 | For fields 0 to 99 the text is eight characters, "HH:MM:SS", and each two-digit field reads back as its component. |
| Stamps.Datestamp | math.go:129-132 | For a year below 10000 and month and day below 100 the text is "YYYY-MM-DD", ten characters, and each field reads back as its component; a negative year starts with '-'. |
| Stamps.DatestampWidensForLargeYears | math.go:129-132 | A five-digit year makes the text eleven characters: the width is a minimum. |
| ShapeSort.Less | validate.go:88-91 | A point orders before another exactly when its sequence number is smaller; `InsertionSort` and `SortsAgreeOnSequence` state what sorting by it gives. |
| ShapeSort.Insert | validate.go:88-91 | Inserting into a sorted run keeps it sorted and adds exactly the point. |
| ShapeSort.InsertionSort | validate.go:121 | The result is ordered by `Less` and is a permutation of the input. |
| ShapeSort.KeysMultiset | validate.go:88-91 | Permutations of points have the same multiset of sequence numbers. |
| ShapeSort.SortedIntsUnique | validate.go:88-91 | A multiset of integers has only one non-decreasing arrangement. |
| ShapeSort.SortsAgreeOnSequence | validate.go:121 | Any two sorted permutations of a shape have the same sequence number at every position, although the unstable sort may order equal numbers either way. |
| ShapeValidation.InRange | validate.go:73-75 | Both bounds are inclusive; `RangeChecksReport` and `SegmentCheck` state what the checks built on it report. |
| ShapeValidation.ToLocation | validate.go:98-103 | The UTM easting and northing, each rounded to one decimal; the projection itself is opaque, and `StateTracksLastDistance` states where the location is kept. |
| ShapeValidation.ToCoord | math.go:67-71 | Latitude and longitude each rounded to p decimals; `Measure` and `StateTracksLastDistance` state where the coordinate is used. |
| ShapeValidation.Hypotenuse | math.go:24-26 | The opaque Euclidean norm of the offsets, rounded to p decimals; `Measure` bounds the planar segment length by it. |
| ShapeValidation.DeclaredSegment | validate.go:159 | The declared distance less the previous declared distance, rounded to four decimals; `AdvanceSegmentRange` and `AdvanceVariance` state how it is judged, and `StateTracksLastDistance` which previous distance it is measured from. |
| ShapeValidation.PointChecks | validate.go:128-145 | The range checks followed by the sequence check; `RangeChecksReport` and `SequenceCheckReport` state what each reports. |
| ShapeValidation.RangeChecks | validate.go:128-135 | The two coordinate checks of a point; `RangeChecksReport` states exactly what they report. |
| ShapeValidation.SequenceCheck | validate.go:136-145 | The sequence check of a point against the counter; `SequenceCheckReport` states exactly what it reports. |
| ShapeValidation.RangeChecksReport | validate.go:128-135 | A latitude outside [-90, 90] is reported, and so is a longitude outside [-180, 180]; each finding names the point, and nothing else is reported. |
| ShapeValidation.SequenceCheckReport | validate.go:136-145 | At most one finding. It appears exactly when the number is not the counter plus one. It is Duplicate exactly when the number equals the counter, and otherwise carries the difference. |
| ShapeValidation.Measure | validate.go:147-170 | The location is the UTM position rounded to one decimal and the coordinate is the point rounded to six. The planar, spherical and Haversine segment lengths are, each within half a unit of the fourth decimal, the kilometre values of the planar distance from the previous location and of the two spherical distances from the new coordinate to the last one. |
| ShapeValidation.SegmentCheck | validate.go:160-167 | At most one finding, and it appears exactly when the declared segment is outside [0.001, 1.0]. It says "below" exactly when the segment is under the minimum and "above" exactly when over the maximum, and it reports the segment rounded to the precision. |
| ShapeValidation.VarianceChecks | validate.go:178-183 | At most two findings, both tagged with the point's number. The segment variance appears exactly when both segment percentages exceed 1% in magnitude, and the distance variance exactly when both distance percentages do. Each carries its declared value and its two percentages, and nothing else is reported. |
| ShapeValidation.Advance | validate.go:148-188 | The accumulator step of one point given its measurements; the Advance lemmas below state its effect on the totals and its findings, case by case. |
| ShapeValidation.Step | validate.go:147-188 | Measure, then advance; `StepIgnoresHaversine` and `StateTracksLastDistance` state what it keeps. |
| ShapeValidation.AdvanceFindingKinds | validate.go:148-188 | The accumulator step reports only distance findings about its own point. |
| ShapeValidation.AdvanceWithoutDistance | validate.go:148 | A point without a declared distance changes no state and reports nothing. |
| ShapeValidation.AdvanceRestart | validate.go:149-155 | A point numbered 1 resets both totals and the previous declared distance to 0, starts the next segment at itself, and reports nothing. |
| ShapeValidation.AdvanceAccumulates | validate.go:158-187 | Any other point with a distance adds exactly its planar and spherical segment lengths, and becomes the previous distance, location and coordinate. |
| ShapeValidation.AdvanceSegmentRange | validate.go:159-167 | In the step, a segment finding appears exactly when the declared segment leaves the range, with the correct side. |
| ShapeValidation.AdvanceVariance | validate.go:173-183 | In the step, the segment variance is reported exactly when the planar and spherical percentage differences of the declared segment both exceed 1% in magnitude. It carries the declared segment and those two percentages. The distance variance works the same way for the declared distance against the running totals. Any variance finding of the step is one of these two. |
| ShapeValidation.AdvanceIgnoresHaversine | validate.go:169-177 | The Haversine estimate does not influence the step. |
| ShapeValidation.FindingsAt | validate.go:128-188 | Everything one point reports: its point checks, then what the accumulator step adds; `FindingsAtOrigin` and `PlainFindings` state what it can hold. |
| ShapeValidation.StateBefore | validate.go:122-191 | The accumulator before each point of a sorted shape; `StateTracksLastDistance` characterises it by the last point with a declared distance. |
| ShapeValidation.ShapeFindings | validate.go:127-191 | The report of a shape, point by point; `ShapeFindingsMembership` and `FindingsAtOrigin` state which findings it holds, and `ScanShape` shows the Go loop computes it. |
| ShapeValidation.ShapeFindingsMembership | validate.go:127-191 | A finding is in a shape's report exactly when some point raised it. |
| ShapeValidation.LastWithDistance | validate.go:148 | Finds the last earlier point that declares a distance, or reports that none does. |
| ShapeValidation.StateTracksLastDistance | validate.go:122-187 | Before each point the state is the zero value if no earlier point had a distance. Otherwise the segment starts at the last such point, and the previous distance is that point's, or 0 if it was numbered 1. |
| ShapeValidation.FindingsAtOrigin | validate.go:127-191 | Every finding names the point that raised it. Distance findings come only from points that have a distance and are not numbered 1. |
| ShapeValidation.NoDistanceFindingsWithoutDistances | validate.go:148 | A shape with no declared distances gets no distance findings. |
| ShapeValidation.SequenceFindingsExactlyWhenMisnumbered | validate.go:122-190 | A sorted shape has a sequence finding exactly when some point's number differs from its 1-based position. |
| ShapeValidation.SequenceChecksIndependentOfSortOrder | validate.go:121-145 | Every sorted arrangement of a shape gets the same sequence checks at every position. |
| ShapeValidation.StepIgnoresHaversine | validate.go:169-177 | Replacing the Haversine formula does not change one step. |
| ShapeValidation.HaversineIrrelevant | validate.go:169-177 | Replacing the Haversine formula does not change any shape's findings. |
| ShapeValidation.PlainFindings | validate.go:127-148 | A point without a distance reports only its range and sequence checks. |
| ShapeValidation.DuplicateHidesGap | validate.go:137-190 | Numbers 1, 2, 2, 4 give only the Duplicate at the second 2. The missing 3 is not reported, because the counter is the position. |
| ShapeValidation.GapReportedAtEveryLaterPoint | validate.go:137-190 | Numbers 1, 3, 4 report "missing, difference 2" at the 3 and again at the 4. |
| ShapeValidation.LonePointMeasuredFromZero | validate.go:122-167 | A lone point numbered 2 that declares 5 km is reported out of sequence and, measured from the zero state, as a too-long segment. |
| ShapeValidation.SortBySequence | validate.go:121 | The result is sorted by sequence number and is a permutation of the shape's points. |
| ShapeValidation.ScanShape | validate.go:122-191 | The loop with its counter and running totals produces exactly the fold's report. |
| ShapeValidation.ScanShapes | validate.go:118-192 | One report per shape, in order, each with the shape's id, a sorted permutation of its points, and the scan of those points from fresh state. |
| ShapeValidation.ValidateShapes | validate.go:111-195 | The same, with the source's loop body. |

## Left out

- main.go, the command-line driver, is not modelled.
- The geometry is opaque: `UTM.FromLatLon`, `math.Sqrt`, `SphericalDistance` and `HaversineFormula` are fields of `Geometry`. The model does not say what they compute, only how their results are rounded and combined.
- `toDegrees` (math.go:29-31) is not called anywhere and is not modelled. `toRadians` is used only inside the geometry and is not modelled.
- Floating point is not modelled. Values are exact reals, so float32 storage of coordinates and declared distances, float32 subtraction, the float32-to-float64 conversions, and the rounding error of `math.Pow` and of the products are absent.
- Rounding.Round: Go's `int(f)` of a float outside the int range, and NaN and infinities, are not modelled; the reals have neither.
- Rounding.ToFixed: the precision is a `nat`. The negative precisions Go would accept are not modelled.
- Report text is not modelled: the file creation, the CSV header, the per-point CSV rows with their `%.4f`-style formatting, and the wording of each message. Each message is a `Finding`. The Haversine percentage `percent5`, which is only printed, is not computed.
- `ValidateShapes` in Go also returns `valid`, which is never assigned and so always false, and the file-creation error; neither is modelled.
- The shapes of a feed come from a Go map, whose iteration order is unspecified. Here they are a sequence processed in the given order.
- The error, zone and letter returned by the UTM projection are discarded by the code, and here too.
- `maximumSegmentError` (validate.go:107) is declared but never used.
- Calendar.GoDiv: only positive divisors are modelled; `daysSince` divides by 4 only.
- The leap-year rule without the 400-year exception is kept as written and is not treated as a finding: it may be a deliberate simplification.
- Stamps.Timestamp and Stamps.Datestamp: the layout is stated for field values that fit their width. Wider values follow the `%0Nd` model (the field grows, and a negative value gets a '-'), which `ZeroPad` states.
- ShapeValidation.ValidateShapes: the order `sort.Sort` leaves equal sequence numbers in is not fixed. The contract holds for any sorted permutation, and `SortBySequence` returns one of them.
- Where the shape checks behave unexpectedly, the model follows the code:
  - The counter is the point's position, so a missing number is reported again at every later point, and a duplicate can hide a gap.
  - The accumulator restarts only at a point numbered 1, and it sets the previous declared distance to 0 rather than to that point's value.
  - A first distance point with any other number is measured from the zero state.
  - Projection errors are ignored rather than skipping the planar estimate.
- The other validators of validate.go and the time helpers (`time.Now`, the GTFS date of today) are not part of this model.

## Findings

| source | as written | input that shows it | evidently intended | confidence | as-written member | corrected member |
|---|---|---|---|---|---|---|
| math.go:100 | the table entry for the months before September is 242 | `DayOfYear` of 2023-07-31 and of 2023-08-01 are both 243 | 243, the days of January to August of a common year | high, not executed | Calendar.DaysBeforeMonthTypo | Calendar.DayOfYearIntendedCountsDays |
| math.go:101 | the 0-based table is indexed with the 1-based month | 2023-01-01 gives day 32; any December date indexes past the table and panics; January 31 gives a higher number than February 1 | index with the month minus one, so January 1 is day 1 and December 31 is day 365 or 366 | high, not executed | Calendar.DayOfYearMonthShift | Calendar.DayOfYearIntendedEndsYear |
