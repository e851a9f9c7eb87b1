# MET visualization: a Dafny model of its data pipeline and scenes

The visualization draws The Metropolitan Museum of Art's collection as three
linked scenes:

1. a treemap of departments sized by how many artworks each one holds;
2. for one department, a bar chart of its artworks per century. Noise buckets
   are dropped, and one callout marks either a curated insight or the largest
   bar;
3. for one century of that department, a stacked chart of the ten most common
   mediums, with every other medium folded into "Other", one row per year.

This project models that pipeline in Dafny. It covers:

- the records and the load-time exclusion of two departments;
- `d3.rollup` grouping, as an association list in first-seen order;
- century bucketing, which rounds BCE years down;
- the noise threshold;
- the annotation choice, with its exact tie-breaking;
- the stable descending sort that picks the top mediums;
- folding into "Other", and the per-year rows;
- the stack layout with no offset;
- the scene state machine driven by clicks.

Modules follow the program's stages:

- `Seqs`: counting, filtering, mapping, sums, subsequences.
- `Sorting`: sorting by a distinct integer key.
- `Grouping`: rollup buckets and totals.
- `Records`: the dataset, the exclusion, the department tiles.
- `Centuries`: the bars of the department scene.
- `Annotations`: the callout.
- `Mediums`: the period data.
- `Stacking`: the layers.
- `Scenes`: navigation and what each scene draws.

Every model is a pure function. Clicks are parameters (`Event`), the
clickable tiles and bars are a `Menu` computed from the data, and the
parameter `data` is the dataset after the load-time exclusion
(`LoadDataset` of the loaded rows, the page's `allData`).

## Model

| member | source | states |
|---|---|---|
| `Records.ExcludeDepartments` | script.js:11-12 | No kept record belongs to an excluded department. Every other record keeps its multiplicity. Order is preserved (a subsequence of the input). |
| `Records.LoadDataset` | script.js:11-12 | The dataset has no record of "The Cloisters" or the "Robert Lehman Collection". Every other record is kept exactly as often as it was loaded, in order. |
| `Grouping.Rollup` | script.js:45 | Counting by key gives distinct keys. Each key's count is its number of occurrences. Exactly the keys that occur appear. The counts add up to the input length. |
| `Grouping.RollupFirstSeen` | script.js:213-215 | Rollup buckets are in first-occurrence order of their keys. This is the order the stable medium sort falls back on for ties. |
| `Grouping.LookupRollup` | script.js:227-228 | `get(key) \|\| 0` on a rollup is the number of occurrences of the key, and 0 for an absent key. |
| `Records.DepartmentCounts` | script.js:45-46 | One tile per department that has a record, each counting that department's records. The tiles add up to the whole dataset. |
| `Records.DepartmentRecords` | script.js:100 | Keeps exactly the records of the named department, with their multiplicities and order. An unknown department yields nothing. |
| `Centuries.Century` | script.js:101 | The century key is a multiple of 100 with `key <= year < key + 100`, so -150 goes to -200. |
| `Centuries.CenturyUnique` | script.js:101 | That multiple of 100 is the only one, so the bucket of a year is determined. |
| `Sorting.SortBy` | script.js:103 | The output is strictly increasing by key and is a permutation of the input. |
| `Centuries.CenturyCounts` | script.js:101-103 | Buckets are strictly ascending by century. Each one counts exactly the records of its century. Every century of some record appears. The counts add up to the number of records. |
| `Centuries.MaxCount` | script.js:105 | The largest bucket count: no bucket exceeds it, some bucket attains it, and it is 0 for no buckets. |
| `Centuries.SurvivesIsAboveThreshold` | script.js:106-107 | `count > 5 && 200 * count > max` is the same test as `count > max(max * 0.005, 5)` over exact reals. |
| `Centuries.Threshold` | script.js:105-107 | A bucket is kept exactly when it clears the threshold, as often as it occurs and in the original order. The largest bucket is kept exactly when it exceeds 5. Ascending order is preserved. |
| `Centuries.CenturyBars` | script.js:100-107 | The department's bars are ascending by century and each has more than 5 records. Each bar's count is the department's exact number of records in that century. The bars are exactly the surviving century buckets. |
| `Annotations.LookupInsights` | script.js:168-172 | Indexing the insights object finds the department's own list exactly for a curated department. For any other name that `Object.prototype` defines, it finds an inherited member, which is truthy and makes the `forEach` throw. For every other name it finds nothing. |
| `Annotations.Find` | script.js:173 | `find` gives the first bar with the century, and fails exactly when no bar has it. |
| `Annotations.Scan` | script.js:172-178 | The `forEach` with strict `>` ends on a matched insight with the largest bar count, every earlier matched insight having a strictly smaller one. It ends on none exactly when no insight's century has a bar. |
| `Annotations.BestInsight` | script.js:167-180 | The chosen curated insight has the largest bar among the insights that match a bar, and it is the first insight with that count. There is none exactly when no insight matches. |
| `Annotations.LastMax` | script.js:182 | The `reduce` keeps a bar whose count no other bar exceeds, and every later bar is strictly smaller, so the last maximal bar wins. There is none only for no bars. |
| `Annotations.ChooseAnnotation` | script.js:167-186 | For a department whose insights are found by the lookup, a curated insight wins whenever one matches a bar, and it is the best one. Otherwise the callout is "Highlight" on the last largest bar, which has a positive count. There is no callout exactly when nothing matches and every count is 0. |
| `Mediums.PeriodRecords` | script.js:208-211 | Keeps exactly the records dated in `[year, year + 100)`, with multiplicities and order. |
| `Mediums.InPeriodIffCentury` | script.js:208-211 | For a century key, lying in the period is the same as having that century. |
| `Mediums.PeriodSize` | script.js:208-211 | For a century key, the period has exactly as many records as the century bucket counts. |
| `Mediums.MediumCounts` | script.js:213 | One bucket per medium of the period, with distinct keys. Each bucket counts that medium's records, and the buckets add up to the period's size. |
| `Mediums.RankMediums` | script.js:214-215 | The stable descending sort is ordered by count descending, and then by first-seen position. Each position appears once with its bucket. |
| `Mediums.TopMediums` | script.js:213-217 | Returns `min(10, #mediums)` distinct mediums of the period. They are in rank order, and every kept medium ranks before every dropped one: a larger count, or an equal count seen earlier. With 10 or fewer mediums all are kept. |
| `Mediums.Fold` | script.js:222 | A medium is counted under its own name when it is a top medium and under "Other" otherwise, so every key is a top medium or "Other". |
| `Mediums.StackKeys` | script.js:232 | The stacking keys are the top mediums in order followed by "Other", one more than the top mediums. |
| `Mediums.FoldedCountOfYear` | script.js:219-223 | The inner rollup by folded medium counts exactly the period's records of that year whose medium folds to the key. |
| `Mediums.YearRow` | script.js:225-229 | A row has one value per stacking key. Each value is the number of that year's records whose folded medium is the key, and 0 when there are none. |
| `Mediums.YearRows` | script.js:219-230 | One row per distinct year of the period, strictly ascending by year. Each value is the folded count for its key. |
| `Mediums.FoldedCountsSum` | script.js:225-229 | With distinct top mediums and none named "Other", a year's values over the top mediums plus "Other" add up to the number of records of that year. |
| `Mediums.RowTotals` | script.js:219-232 | Every row adds up to the number of the period's records of its year. |
| `Stacking.StackFrom` | script.js:248-251 | Stacking a row from a running total gives band `i` from the sum of the first `i` values to the sum of the first `i + 1`. |
| `Stacking.StackRowWidths` | script.js:248-251 | Every band is exactly as tall as its value. |
| `Stacking.StackRowEnds` | script.js:248-251 | With no offset, the first band starts at 0 and each band starts where the previous one ends. The last band ends at the row total. |
| `Stacking.StackCovers` | script.js:248-251 | Every height below the row total lies in some band. |
| `Stacking.StackDisjoint` | script.js:248-251 | A lower band ends at or below the start of every higher band, so bands do not overlap. |
| `Stacking.Stack` | script.js:248-251 | One layer per key, in key order, with one point per row carrying its year. The point spans the prefix sums of the row's values before and through that key. |
| `Stacking.StackTop` | script.js:248-251 | The top of the last layer at each row is the row's total. |
| `Stacking.StackHeights` | script.js:248-251 | At each row, every layer carries the row's year and is exactly as tall as the row's value for its key. |
| `Stacking.StackIsStacked` | script.js:248-251 | With no offset, the lowest layer starts at 0 at every row, and every other layer starts where the layer below it ends. |
| `Scenes.Tiles` | script.js:45-54 | The treemap always has a leaf. With records, the leaves are the department counts. With none, the childless root is the only leaf, named "root" with size 0. Either way the sizes add up to the dataset. |
| `Scenes.MenuOf` | script.js:45-54 | The treemap's tiles are exactly the departments that have a record, or the single "root" tile when there is no record. Every tile has a bar chart, and its clickable centuries are exactly that department's bars. |
| `Scenes.Step` | script.js:73-77 | A click never leaves the valid scenes. A tile opens its department only from the treemap, and a bar opens its century only within the current department. Back works everywhere except on the treemap and in a department scene whose insight lookup threw before the button was bound. This covers the clicks at lines 147, 196 and 295 as well. |
| `Scenes.BackUndoesSelect` | script.js:196 | Back after opening a department or a century returns to the scene it was opened from. The one exception is a department whose insight lookup threw: there Back does nothing. Line 295 is the century case. |
| `Scenes.BackMatchesView` | script.js:168-196 | In a department scene, Back works exactly when the drawn view has its back button bound. |
| `Scenes.RunPreservesValid` | script.js:73-77 | Any sequence of clicks from a valid scene ends in a valid scene. |
| `Scenes.PathReaches` | script.js:73-77 | Every valid scene is reached from the treemap by clicking its tile and then its bar. |
| `Scenes.ReachableIffValid` | script.js:73-77 | The scenes reachable from the treemap are exactly the valid ones. |
| `Scenes.DepartmentScene` | script.js:100-196 | The bars are exactly the department's surviving centuries, ascending, with exact counts. If the insight lookup succeeds, the callout is the chosen annotation and exists exactly when there is a bar. If the lookup finds an inherited member, there is no callout and the back button is unbound. A "Highlight" callout marks a largest bar. |
| `Scenes.BarsAreCenturies` | script.js:101-103 | Every bar of a department's chart has a century key, a multiple of 100. |
| `Scenes.PeriodOfCentury` | script.js:208-211 | For a century key, the period holds each record of that century exactly as often as the input does, and no other record. Its size is that century's bucket count. |
| `Scenes.PeriodMatchesBar` | script.js:147 | The period opened from any bar holds exactly as many records as the bar shows. |
| `Scenes.PeriodScene` | script.js:208-251 | The keys are the top mediums of the department's records in that century, in rank order, followed by "Other", with one layer per key. The rows are one per year that has a record, ascending and inside the century, and each row holds one value per key: the number of that year's records whose medium folds to the key, 0 when there are none. The layers are stacked from 0, each starting where the one below ends, and each layer at a year is as tall as that year's records whose medium folds to its key. When no top medium is named "Other", the top of the stack at each year is the number of records of that year. |
| `Scenes.StackedView` | script.js:213-251 | The same view for any records of one period: the keys, the rows and each row's per-key values, band placement, layer heights and stack tops as stated for the period scene. |
| `Scenes.PeriodRowValues` | script.js:219-230 | Each row of a period holds, for every stacking key in order, the number of that year's records whose medium folds to that key (a top medium stays itself, any other medium becomes "Other"), 0 when there are none. |
| `Scenes.PeriodHeights` | script.js:225-251 | Each stacked layer is, at every year, as tall as the folded count of its key in that year. |
| `Scenes.PeriodTops` | script.js:219-251 | When no top medium is called "Other", the stack at each year tops out at the number of records of that year. |
| `Scenes.PeriodRowsOf` | script.js:219-230 | For records inside a century, the rows are one per year that has a record, ascending, all inside the century. |
| `Scenes.Render` | script.js:30-296 | Each scene draws its own kind of view for the clicked department and century. The treemap draws exactly the tiles, which add up to the whole dataset. |

## Left out

- Loading the CSV and its failure message (lines 9-25) are I/O. The loaded rows are a parameter.
- The unary `+` that turns the begin date into a number is not modelled. Dates are already integers, so `NaN` dates do not arise.
- Rendering is not modelled: SVG, scales and axes, the treemap layout, the area path, colours, tooltips and hover effects. This includes the hierarchy sort and the symlog scale, which change geometry only.
- Centuries.Threshold: the threshold is stated over exact arithmetic. The floating-point rounding of `maxCount * 0.005` is not modelled.
- Centuries.MaxCount: `d3.max` of an empty list is `undefined`. It is modelled as 0, which keeps no bar either way.
- Scenes.MenuOf: every treemap leaf is treated as clickable, whatever its drawn size. With `padding(3)`, a department whose cell is narrower than 3 pixels gets a zero-width rectangle and a hidden label, so it cannot be clicked in practice. Scenes.ReachableIffValid therefore counts its scene as reachable.
- Annotations.ChooseAnnotation: the long label text of each insight and of the "Highlight" callout is prose and is not modelled. The callout keeps its bar and the insight's year and title.
- Mediums.RowTotals: the row total is proved only when no top medium is literally named "Other". If one is, the keys list "Other" twice and both layers read the same merged count, so the stack overstates the year.
- Scenes.PeriodScene: its stack-top statement has the same "Other" condition.
- Mediums.YearRow: a top medium named "year" would overwrite the year field of its stacking entry in the code. One named `__proto__` is not stored at all, because the assignment goes to the prototype setter. The stack then reads NaN for it, that layer gets no height, and its records drop out of the year's top. The model keeps mediums and the year apart and stacks every key normally.
- The period scene draws no callout in the code, so the model has none there.
- filter_data.py is not part of this model. It is an offline preprocessing script with its own department list, and the page never runs it.
