# Bathurst charts: the data layer, in Dafny

The dashboard in `app.js` draws charts of Bathurst supercar entrants and race
results. Before anything is drawn it turns three kinds of input into
chart-ready series:

- a fixed year axis (`categories`, 1995 to 2025, and `idxOf`);
- hand-written per-manufacturer entrant tables, zero-filled and then
  overwritten at a few years;
- a list of per-year race records.

This project models that data layer and proves what each series holds.

Modules, one file each:

- `Wrappers`: the `Option` type.
- `Strings`: decimal text of an integer (`String(n)`) and ECMAScript `trim`.
- `YearAxis`: the category labels, `indexOf` and `idxOf`.
- `Brands`: the `BRAND` and `LETTER_TO_BRAND` tables.
- `Entrants`:
  - the sparse entrant arrays, filled in place by methods over arrays;
  - the `totals` reduction, and the split-chart bars it matches;
  - `pin`.
- `Records`: race records, the year-keyed lookup `byYear`, and the way the page reads a count field.
- `Finishes`: the result-types-per-year series.
- `Blocks`: generic facts about a sequence built block by block (what it holds, its order, how many elements fall in each column).
- `Podium`: the podium heatmap cells, built by a method with nested loops, and the sweep stars.
- `ModelUsage`: the filtered model catalogue and the model-usage heatmap points, both built by methods with nested loops.

Each loop-based method is proved equal to a specification function. The
properties the page relies on are proved about those functions:

- lengths;
- the values at each position;
- which points exist, and that each has all its fields right;
- ordering;
- completeness;
- defaults for years without a record;
- the last-record-wins rule of `byYear`.

Sweep detection compares the raw podium fields with strict equality, as
`app.js` does. The heatmap cells, by contrast, use the trimmed letters.

## Model

| member | source | states |
|---|---|---|
| Strings.IntString | app.js:155 | `String(n)` is non-empty and begins with `-` exactly for a negative number |
| Strings.NatStringRoundTrip | app.js:155 | reading the decimal digits of `n` back gives `n` |
| Strings.IntStringInjective | app.js:155 | distinct years have distinct `String(Year)` keys |
| Strings.SkipLeading | app.js:206 | the scan stops at the first non-whitespace character from `i` on, having passed only whitespace |
| Strings.SkipTrailing | app.js:206 | the scan backs over trailing whitespace only, and stops after a non-whitespace character or at `lo` |
| Strings.Trim | app.js:206 | `s.trim()`, built from the two scans; what it keeps is stated by Strings.TrimSpec and Strings.TrimIdempotent |
| Strings.TrimSpec | app.js:206 | `trim` keeps a slice of the text with only whitespace around it; the slice neither starts nor ends with whitespace; it is empty exactly when the text is all whitespace |
| Strings.TrimIdempotent | app.js:206 | trimming a trimmed text changes nothing |
| YearAxis.YearLabels | app.js:28-32 | the labels of consecutive years: as many as asked, label `i` the text of year `first + i` |
| YearAxis.CategoryLabels | app.js:28-32 | the axis has 31 labels, from "1995" to "2025" |
| YearAxis.IndexOf | app.js:33 | `indexOf` returns -1 exactly for an absent text; otherwise the first position holding it |
| YearAxis.IdxOf | app.js:33 | `idxOf(y)`: -1 exactly for a year off the axis (before 1995 or after 2025); YearAxis.IdxOfIsIndexOf states that the label at any other result is the year's text |
| YearAxis.IdxOfIsIndexOf | app.js:33 | `idxOf(y)` equals `categories.indexOf(String(y))`; when found, the label there is the year's text |
| YearAxis.IndexOfLabel | app.js:33 | in consecutive-year labels, a year's text is at offset `year - first`, and is -1 off the list |
| YearAxis.IndexOfFinds | app.js:33 | `indexOf` finds every present element, at or before any position holding it |
| Brands.BrandOfLetter | app.js:208 | a manufacturer exactly for the letters H, F, N and C (Holden, Ford, Nissan and Chevrolet respectively), and it always has a colour |
| Brands.ColourOf | app.js:298 | a colour exactly for the six manufacturers of `BRAND`, never the neutral podium colour |
| Brands.ColoursDistinct | app.js:18-25 | no two manufacturers of `BRAND` share a colour |
| Entrants.Abs | app.js:78-82 | `Math.abs`: the value or its negation, never negative |
| Entrants.Zeros | app.js:45-49 | `Array(n).fill(0)` has length `n` and is 0 everywhere |
| Entrants.Placed | app.js:52-56 | the overwrites keep the array's length |
| Entrants.PlacedUntouched | app.js:52-56 | a position no written year maps to keeps its value |
| Entrants.PlacedLastWrite | app.js:52-56 | a position holds the count of the last write to it |
| Entrants.Sparse | app.js:45-72 | a filled-in table has one entry per year of the axis |
| Entrants.SparseConsecutive | app.js:51-56 | a table written for consecutive years holds each year's count at that year's position and 0 elsewhere |
| Entrants.Overwrite | app.js:52-56 | writing the year list into an array in place gives the in-order overwrites of its old contents |
| Entrants.BuildTables | app.js:36-72 | the tables built by the fill-ins are the eleven series as specified |
| Entrants.FillExtraMakes | app.js:45-56 | the Nissan, Mercedes and Volvo arrays, zero-filled then written in place, equal their sparse tables |
| Entrants.FillPrivateers | app.js:48-62 | the two privateer arrays, written entry by entry, equal their sparse tables |
| Entrants.FillSpecialClasses | app.js:65-72 | the four 1997 class arrays equal their sparse tables |
| Entrants.StaticTablesAligned | app.js:28-72 | every entrant array has length 31, the length of the axis |
| Entrants.ExtraMakeYears | app.js:45-72 | each extra series is non-zero exactly in its years: Nissan 2013-2019, Mercedes 2013-2015, Volvo 2014-2016, privateers 1998-1999, the 1997 classes in 1997; Ford Special Level 1 is 0 in every year |
| Entrants.BaseSigns | app.js:35-42 | base Ford counts are negative and base GM counts positive in every year |
| Entrants.ExtraSigns | app.js:44-72 | Ford-side extras are never positive and Holden extras never negative |
| Entrants.LeftExtrasAbsAt | app.js:77-79 | `leftExtrasAbsAt(i)`, the Ford-side extras as magnitudes; Entrants.FordSideBarLength ties it to the Ford-side bars |
| Entrants.RightExtrasAt | app.js:80 | `rightExtrasAt(i)`, the Holden extras added as stored; Entrants.Totals bounds each total below by it, and Entrants.ExtraSigns shows its terms are never negative in the shipped tables |
| Entrants.Totals | app.js:77-83 | `totals` is as long as `fordVals`, and each total is at least the Ford magnitude plus GM plus the Holden extras |
| Entrants.SplitSeries | app.js:130-148 | the eleven series of the split chart in the order it lists them |
| Entrants.BarLength | app.js:130-148 | the combined length of the first `n` bars drawn at a year; Entrants.FordSideBarLength and Entrants.TotalIsBarLength state its value |
| Entrants.FordSideBarLength | app.js:77-79 | the Ford-side bars of a year add up to the Ford magnitude plus `leftExtrasAbsAt` |
| Entrants.TotalIsBarLength | app.js:77-83 | where the GM-side values are not negative, a total is the combined length of the year's eleven bars |
| Entrants.StaticTotals | app.js:77-83 | for the tables as written, every total equals its bar length and is at least the Ford magnitude plus GM |
| Entrants.Pin | app.js:74 | `pin` keeps length and order; point `i` is `{x: i, y: arr[i]}` |
| Entrants.PinRoundTrip | app.js:74 | reading the `y` values back from `pin(arr)` gives `arr` |
| Records.YearKey | app.js:155 | `String(r.Year)`: a record's key is an axis label exactly when its year is on the axis |
| Records.ByYear | app.js:155 | `byYear` holds exactly the keys `String(Year)` of the rows; each entry is a row filed under its own year |
| Records.ByYearLastWins | app.js:155 | on a duplicate year, the last record in input order is the one kept |
| Records.Lookup | app.js:204 | a record is found exactly for a key of `byYear` |
| Records.Str | app.js:206 | `String(v)` of a text is the text, and of a count its decimal text |
| Records.Truthy | app.js:206 | JavaScript truthiness of a field (`null`, 0 and empty text are falsy, as in `r[String(p)] \|\| ''` here and `a && ...` at app.js:228); Records.TruthyText states that a truthy field never reads as empty text |
| Records.TruthyText | app.js:206 | a truthy field's text is never empty, so the letter `String(v \|\| '')` is blank before trimming only for a falsy field |
| Records.CountField | app.js:166 | a field holding a count reads as that count; a year without a record, or a missing, `null` or text field, reads as 0 |
| Finishes.KeyColour | app.js:167 | a colour exactly for a key of `finishColors` |
| Finishes.KeysHaveColours | app.js:159-163 | each of the nine result kinds has a colour, and no two share one |
| Finishes.FinishData | app.js:166 | one value per year: the year's count for the key when its record holds one, and 0 otherwise (no record, or a missing, `null` or text field) |
| Finishes.FinishSeries | app.js:164-168 | nine series in `finishKeys` order, each named after its key, as long as the axis and coloured by `finishColors` |
| Finishes.FinishFromLastRecord | app.js:155-166 | a series' value for a year is that kind's count in the last row for the year (0 when absent or not a count) |
| Finishes.FinishAbsentYear | app.js:166 | a year no row is for has 0 in every series |
| Podium.PositionKey | app.js:206 | the field key of positions 1 to 3 is the position's decimal text |
| Podium.Letter | app.js:204-206 | a truthy field reads as its text trimmed; a year without a record, or a missing or falsy field, gives the blank letter |
| Podium.LetterTrimmed | app.js:206 | a podium letter never starts or ends with whitespace |
| Podium.IsYellow | app.js:209 | the yellow makes are Chevrolet and Nissan, both known manufacturers; Podium.PositionCellsWellFormed states that each cell's flag is this test of its make |
| Podium.CellColour | app.js:212 | the neutral colour exactly when the letter has no manufacturer with a colour |
| Podium.YearLetters | app.js:205-206 | the three letters of a year, position by position |
| Podium.LetterGrid | app.js:203-206 | one row of three letters per year of the axis |
| Podium.GridLetter | app.js:203-206 | the grid holds, for each year and position, that year's trimmed letter |
| Podium.CellAt | app.js:206-223 | the one cell pushed for a year and position: none for a blank letter; its properties are stated by Podium.PositionCellsWellFormed and Podium.PositionCellComplete |
| Podium.HeatData | app.js:202-224 | the nested `forEach`/`push` loops build exactly the specified cell sequence |
| Podium.PodiumCells | app.js:202-224 | `heatData` as a value; Podium.PodiumCellsSound, Podium.PodiumCellsOrdered, Podium.PodiumCellsComplete and Podium.PodiumColumnCount state what it holds |
| Podium.PositionCellsShape | app.js:205-211 | a year's cells sit in that year's column with `y = pos - 1`, positions increasing |
| Podium.PositionCellsWellFormed | app.js:205-222 | each cell of a year is well formed: its letter, value 1, make, colour and yellow flag are as the source sets them |
| Podium.PositionCellsBlank | app.js:207 | blank letters give no cells |
| Podium.PositionCellComplete | app.js:205-210 | each non-blank letter of a year has its cell |
| Podium.YearBlocksShape | app.js:203-224 | per-year blocks stay in their column, go down the rows, hold well-formed cells, at most three each |
| Podium.PodiumCellsSound | app.js:202-224 | every cell of `heatData` is well formed, carries its year's letter at its position, and belongs to a year with a record |
| Podium.PodiumCellsOrdered | app.js:203-205 | cells are ordered by year, then by position |
| Podium.PodiumCellsComplete | app.js:203-210 | every non-blank letter at every year and position has a cell |
| Podium.PodiumColumnCount | app.js:204-207 | at most three cells per year, none for a year without a record |
| Podium.IsSweep | app.js:228 | `a && a === b && b === c` on the raw fields "1", "2", "3"; Podium.StarAt and Podium.SweepExamples state its effect |
| Podium.StarAt | app.js:226-231 | a star for a year exactly when its "1" field is truthy and equals "2" and "3"; the star sits at `x`, `y = 1` with the year's label, its make is the manufacturer of the raw "1" value, and its colour is that manufacturer's (none when there is no manufacturer) |
| Podium.SweepStars | app.js:225-233 | `sweepStars`; Podium.SweepStarsSound and Podium.SweepStarsComplete state what it holds |
| Podium.SweepStarsSound | app.js:225-233 | every star belongs to a sweep year, sits at `y = 1`, carries the swept manufacturer and its colour, and stars follow year order (so at most one per year) |
| Podium.SweepStarsComplete | app.js:225-233 | every sweep year has its star |
| Podium.SweepExamples | app.js:227-230 | H, H, H gives a Holden star in Holden red; H, F, H gives none |
| ModelUsage.UsedIn | app.js:288 | `years.some(...)` holds exactly when some year has a positive count for the model |
| ModelUsage.ModelCount | app.js:295 | `byYear[y] ? (byYear[y][model] \|\| 0) : 0`, read as Records.CountField reads a count |
| ModelUsage.YearsUsingPositive | app.js:288 | the number of years using a model is positive exactly when the model is used |
| ModelUsage.Flatten | app.js:277-287 | the catalogue's rows, manufacturer by manufacturer; ModelUsage.FlattenMembers states what it holds |
| ModelUsage.UsedRows | app.js:285-291 | the used rows in catalogue order; ModelUsage.UsedRowsSelect and ModelUsage.UsedRowsMembers state what it keeps |
| ModelUsage.FlattenMembers | app.js:277-287 | the catalogue's rows are exactly its (manufacturer, model) pairs |
| ModelUsage.UsedRowsSelect | app.js:285-291 | `presentModels` is the catalogue at increasing positions, and a position is kept exactly when its model is used: an order-keeping subsequence |
| ModelUsage.UsedRowsMembers | app.js:285-291 | a row is present exactly when it is a catalogue row whose model is used |
| ModelUsage.PresentModels | app.js:285-291 | the nested loops build exactly the filtered catalogue |
| ModelUsage.PresentModelsExact | app.js:277-291 | with `ORDERED_MODELS`, the present rows are exactly its pairs whose model has a positive count in some year |
| ModelUsage.PointAt | app.js:295-300 | the one point pushed for a row and year: none unless the count is positive; ModelUsage.RowPointsShape states its fields |
| ModelUsage.RowPoints | app.js:294-302 | one row's points over the years; ModelUsage.RowPointsShape and ModelUsage.RowPointComplete state what it holds |
| ModelUsage.ModelPoints | app.js:292-303 | `heatmapPoints` as a value; ModelUsage.ModelPointsSound, ModelUsage.ModelPointsOrdered, ModelUsage.ModelPointsComplete and ModelUsage.ModelPointsRowCount state what it holds |
| ModelUsage.HeatmapPoints | app.js:292-303 | the nested loops build exactly the specified point sequence |
| ModelUsage.RowPointsShape | app.js:294-301 | a row's points lie in that row, one per year with a positive count, in year order, each with `value = count > 0` and its model's facts |
| ModelUsage.RowPointComplete | app.js:294-301 | within a row, every year with a positive count has its point |
| ModelUsage.RowBlocksShape | app.js:293-303 | per-row blocks stay in their row, go along the years, and hold well-formed points |
| ModelUsage.ModelPointsSound | app.js:292-303 | every point lies in the row of a present model and the column of a year with a record, carries that model's make and colour, and has `value = count > 0` |
| ModelUsage.ModelPointsOrdered | app.js:293-294 | points are ordered by row, then by year |
| ModelUsage.ModelPointsComplete | app.js:292-303 | every (row, year) with a positive count has a point |
| ModelUsage.ModelPointsRowCount | app.js:294-301 | row `r` has exactly one point per year with a positive count for its model |
| ModelUsage.PresentRowsFilled | app.js:285-303 | drawn from `presentModels`, every row of the heatmap has at least one point |

## Left out

- Every `Highcharts.chart(...)` call and its configuration (app.js:86-151, 169-178, 182-197, 235-274, 304-320) is left out. This covers axes, zones, gradients, tooltip and label formatters, the model row labels, and the star marker's symbol and radius. They belong to a rendering library that is not part of this model. One exception: the order of the split chart's eleven series (app.js:130-148) is modelled by Entrants.SplitSeries, so that totals can be compared with bar lengths.
- `hmsToSeconds`, `formatHMS` and the race-time series (app.js:2-15, 180-197) are left out: they rest on floating-point seconds and `toFixed` rounding.
- `init` (app.js:324-333) is left out: it only reads a browser global and logs to the console.
- Records.CountField: a count field holding text reads as 0, without JavaScript's numeric coercion. Counts are integers, so fractional, `NaN` and infinite values cannot occur. On these values `Number.isFinite(+v) ? +v : 0` (finishes) and `v || 0` (model usage) agree, and one reading models both.
- Records.Record: a record's year is an integer. `String(r.Year)` on a year held as text is not modelled.
- Entrants.Totals: requires the eleven arrays to be equally long. With shorter arrays, JavaScript would read `undefined` and produce `NaN`. The arrays as written are aligned (Entrants.StaticTablesAligned).
- Entrants.Overwrite: a year list and its value list are zipped into `Placement` pairs. Lists of unequal length do not occur in the source. A year off the axis has index -1; JavaScript then writes a non-index property, which the model treats as changing no element.
- Entrants.Sparse: the source's explicit write of 0 for Ford Special Level 1 in 1997 is kept, so that series is 0 in every year.
- Finishes.KeyColour: the `|| undefined` fallback is modelled as `None`. No key of `finishKeys` reaches it.
- ModelUsage.PresentModels: takes the catalogue as a parameter; the page passes `ORDERED_MODELS`, modelled as `OrderedModels`. That `ORDERED_MODELS` repeats no model is not proved. `UsedRowsSelect` is stated over positions, so it does not depend on that.
- Podium.Cell: the yellow-label style override is modelled as the flag `yellow`. The label style values themselves are rendering configuration.
- Strings.Trim: it removes ECMAScript's whitespace and line-terminator code points. JavaScript works on UTF-16 code units; the model uses Dafny characters.
