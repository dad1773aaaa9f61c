# bookshift in Dafny

A verified model of the computation in `bookshift.py`, a planner for shifting library books
from one shelving layout to another. For every shelf of the current layout it works out
where the last book on that shelf will end up in the future layout, and it does the same in
the other direction. The computation has four parts, and each is one Dafny module:

- `ColumnDeriver` (`column_deriver.dfy`) holds the derived columns.
  - `running_sum`: the running sums of shelf measures.
  - `section_range_count`: section and range numbers counted from blank and non-blank marker
    cells.
  - `item_count_per_value`: a position counter that restarts when a group value changes.
  - `set_check`: the normalised collection-id column `col_num2`.
- `CalculatedData` (`calculated_data.dfy`) models `add_calculated_data`. That function adds
  the derived columns to the dictionary of imported columns, in place. The dictionary is the
  `map` field of the class `ShelfTable`, and the method `AddCalculatedData` updates it.
- `SpaceAllocator` (`space_allocator.dfy`) models `set_measurement_totals_after`.
  - A collection with an imposed fill ratio `r` gets `measure / r` of future shelf space.
  - Every other collection shares one leftover ratio.
  - The allocation table lists, for each collection, its book measure, its fill ratio and
    the space it needs.
- `FutureRunsum` (`future_runsum.dfy`) models `runsum_after`. It walks the future shelves
  with a cursor (`pointer`, `col_num`) over the collections' allotments, and splits a shelf
  between two collections when an allotment ends part-way along it.
- `WaypointMapper` (`waypoints.dfy`) models `waypoint_calc` and `waypoint_pretty`.
  - A forward-only shelf cursor over the other layout's running sums gives each book its
    target shelf and its offset into that shelf.
  - Each waypoint is then written out as a sentence.

Two small modules support these:

- `Outcomes` holds `Option`, `Result` and `Fault`. Every way the Python program stops early
  is a `Fault` value: an exception, or `sys.exit(1)`.
- `Text` holds the string behaviour the program uses: `str.strip`, `str.zfill` and `str(int)`.

Measures and ratios are exact `real`s. Each counter, accumulator and cursor loop of the
source is a Dafny `method` with a loop. It is proved equal to a recursive specification
function (for example `SectionRangeCount` and `SectionRangeNumbers`, or `RunsumAfter` and
`WalkTo`). The two loops of `waypoint_pretty` only map each waypoint to a sentence, so
`WaypointPretty` builds that list as a sequence comprehension. The lemmas prove the
properties of the source on the specification functions.

The source's quirks are modelled as the code behaves.

- `item_count_per_value` at position 0 compares `list2[0]` with `list2[-1]`, the last entry.
  It never restarts the counter at the last position.
  - When no later marker opens a second section, the shelves are numbered 0, 1, 2, …
    (`SingleSectionFromZero`).
  - The function's own docstring promises a reset to 1 whenever the `list2` value changes
    (`bookshift.py:99`).
- In `set_check`, `zfill` turns a blank id into a string of `'0'`s. The forward fill therefore
  only acts when every id is blank, and then every id becomes `"1"`.
  - `FilledColumnSomePresent` and `FilledColumnAllBlank` prove this.
  - The function's docstring says it fills in the blanks (`bookshift.py:113`).
- In the exact-boundary branch of `runsum_after`, `col_num` moves on before the ratio lookup.
  - A plan with one collection and no imposed ratio gives that collection the whole future
    shelf measure. The walk then fails once it reaches the end of the allotment, because it
    runs past the ratio table (`SingleCollectionFails`).
  - For example, current measures [10, 10, 10], future shelves [15, 15] and no imposed ratio
    make the program stop with an index error.
- `waypoint_calc` measures a book on the first shelf against `list2[-1]`. When that offset is
  negative it substitutes the book's own running sum, not zero as its comment says
  (`UnitsOnFirstShelf`).
- A future layout whose last shelf is split between two collections gets no
  `units_per_shelf` entry for that shelf (`StepAcross`, `WalkShape`).

## Model

| member | source | states |
|---|---|---|
| Text.StripEmptyIffBlank | bookshift.py:90 | the blank test `x.strip() == ''` holds exactly when every character is whitespace |
| Text.StripTrims | bookshift.py:114 | `str.strip()` (with `IsSpace` as `str.isspace`) keeps the stretch of the string after its leading whitespace, and drops only whitespace in front of it |
| Text.StripEndsNonSpace | bookshift.py:114 | the stretch `str.strip()` keeps neither starts nor ends with whitespace |
| Text.StripDropsTrailingSpace | bookshift.py:114 | what `str.strip()` drops after the kept stretch is whitespace too |
| Text.ZFillUnsigned | bookshift.py:116 | `zfill(width)` of an unsigned or empty id puts `width - len` zeros in front of it |
| Text.ZFillPads | bookshift.py:116 | `zfill(width)` leaves a value at least `width` long alone; a shorter one keeps its sign first and its other characters last, with only zeros between |
| Text.NatToString | bookshift.py:293 | `str(n)` is a non-empty string of decimal digits with no leading zero |
| Text.ParseNatToString | bookshift.py:293 | reading the decimal digits of `str(n)` back gives `n` |
| Text.TrailingDigitsAfter | bookshift.py:293 | digits written after text that ends in a non-digit are exactly the string's trailing digits |
| ColumnDeriver.RunningSumAt | bookshift.py:78-82 | entry i of `list(accumulate(data))` is the exact sum of measures 0..i |
| ColumnDeriver.RunningSum | bookshift.py:78-82 | `list(accumulate(data))` has one entry per measure |
| ColumnDeriver.Accumulate | bookshift.py:81 | `accumulate` carried on from a running total yields one total per remaining measure |
| ColumnDeriver.RunningSumSteps | bookshift.py:78-82 | same length as the input, first entry `data[0]`, `out[i] = out[i-1] + data[i]`, last entry the total |
| ColumnDeriver.RunningSumSnoc | bookshift.py:78-82 | appending a measure appends the new total to the running sum |
| ColumnDeriver.RunningSumMonotone | bookshift.py:78-82 | with no negative measure the running sum never decreases |
| ColumnDeriver.SectionRangeCount | bookshift.py:85-95 | the counter loop returns, for each row i, the number of non-blank markers in rows 0..i |
| ColumnDeriver.SectionRangeNumbers | bookshift.py:85-95 | the section or range numbering has one entry per row |
| ColumnDeriver.SectionRangeNumbersStep | bookshift.py:85-95 | the numbering starts at 0 or 1 and rises by exactly one at each non-blank marker, never otherwise |
| ColumnDeriver.SectionRangeNumbersExtremes | bookshift.py:85-95 | a marker column never set numbers every row 0; one set on every row numbers row i as i + 1 |
| ColumnDeriver.ItemCountRounds | bookshift.py:102-107 | after k rounds, each emitted value is 1 at a group change (position 0 compared with the last), else the previous value plus one when list1 changed |
| ColumnDeriver.ItemCounts | bookshift.py:98-109 | `[0]` for at most one item; otherwise one entry per item, the wraparound restart at 0, restarts only before the last position, and a last entry that never restarts |
| ColumnDeriver.ItemCountPerValue | bookshift.py:98-109 | the loop returns exactly `ItemCounts(list1, list2)` |
| ColumnDeriver.ItemCountsSinceReset | bookshift.py:98-109 | after the last restart at j, the counter is 1 plus the number of list1 changes since j |
| ColumnDeriver.ItemCountsBeforeReset | bookshift.py:98-109 | before any restart, the counter is the number of list1 changes from position 1 |
| ColumnDeriver.MaxLength | bookshift.py:115 | no stripped id is longer than the width |
| ColumnDeriver.MaxLengthAttained | bookshift.py:115 | some id of a non-empty column reaches the width |
| ColumnDeriver.PadAll | bookshift.py:116 | each padded id is as long as the width, or keeps its length when it is longer |
| ColumnDeriver.FilledColumn | bookshift.py:112-122 | `col_num2` has one entry per row and no empty entry |
| ColumnDeriver.SetCheck | bookshift.py:112-122 | fails (max of an empty list) exactly on an empty column; otherwise returns `FilledColumn` |
| ColumnDeriver.ForwardFill | bookshift.py:117-121 | an empty first entry becomes "1" and every later empty entry takes the entry before it; with no empty entry nothing changes; with all empty every entry is "1" |
| ColumnDeriver.IdWidthZeroIffAllBlank | bookshift.py:114-115 | the padding width is 0 exactly when every id is blank |
| ColumnDeriver.FilledColumnAllBlank | bookshift.py:112-122 | with every id blank, every entry of `col_num2` is "1" |
| ColumnDeriver.FilledColumnSomePresent | bookshift.py:112-122 | with some id present, every entry has the same width, a blank id becomes all zeros, and an unsigned id keeps its digits behind the padding |
| CalculatedData.TextColumn | bookshift.py:320-337 | a column lookup succeeds exactly for a present text column; a missing key is a KeyError |
| CalculatedData.MeasureColumn | bookshift.py:332 | the `measure` lookup succeeds exactly for a present column of measures and returns it; a missing key is a KeyError, a text column `WrongColumnType` |
| CalculatedData.ShelfNumbers | bookshift.py:320 | `tuple(range(1, n + 1))` has one entry per row |
| CalculatedData.ShelfNumbersFromOne | bookshift.py:320 | the shelf numbers start at 1 and rise by one at each row |
| CalculatedData.ShelfTable.AddCalculatedData | bookshift.py:302-348 | the dictionary is updated to `Calculated(old data)`; on a failure part-way, every imported column that is not a calculated one is untouched |
| CalculatedData.ShelfTable.AddListColumns | bookshift.py:326-337 | the branch on `list_type` stores `range_num`, and for an original list also `runsum` and `col_num2`, as `ListColumns` defines; a failure leaves imported columns untouched |
| CalculatedData.ShelfTable.AddPositionColumns | bookshift.py:339-346 | stores `shelf_per_section` (each shelf's position within its section); then fails with IndexError exactly when the range numbering is shorter than the sections less one, leaving only that column written, and otherwise also stores `section_per_range` and returns the whole dictionary |
| CalculatedData.CalculatedOkIff | bookshift.py:302-348 | the call completes exactly when its input columns exist with the right kind, `col_num` of an original list is not empty, and the range markers reach the second-to-last row |
| CalculatedData.CalculatedKeepsImported | bookshift.py:302-348 | a completed call keeps every imported column that is not a calculated one |
| CalculatedData.CalculatedNumbering | bookshift.py:320-346 | a completed call adds `shelf_num` 1..n, `section_num` and `range_num` from the marker columns, and the two position columns from `item_count_per_value` |
| CalculatedData.CalculatedOriginalExtras | bookshift.py:326-334 | an original list also gets the running sum of `measure` and the filled collection ids |
| CalculatedData.CalculatedFutureKeys | bookshift.py:335-346 | a future list gets exactly the five numbering columns added |
| CalculatedData.NewSectionAtMarker | bookshift.py:103 | past the first row, a section starts exactly where its marker is not blank |
| CalculatedData.SectionsFromFirst | bookshift.py:85-95 | section numbers never fall below the first row's, and equal it exactly while the markers stay blank |
| CalculatedData.ShelfNumbersAlwaysChange | bookshift.py:106-107 | consecutive shelf numbers always differ, so every row counts as a change |
| CalculatedData.ShelfPositionAfterMarker | bookshift.py:341-342 | a shelf j rows after the non-blank marker that opened its section is numbered j + 1, the last row included when its section opened before it |
| CalculatedData.SingleSectionFromZero | bookshift.py:341-342 | when every marker after the first is blank, the shelves are numbered 0, 1, 2, … |
| CalculatedData.FirstShelfOpensSection | bookshift.py:341-342 | with a second section somewhere below, the first shelf is numbered 1 |
| CalculatedData.LastShelfNeverResets | bookshift.py:108 | the last shelf is numbered one past the shelf before it, even when its own marker is set |
| SpaceAllocator.Allocate | bookshift.py:146-178 | stops exactly on a length mismatch, a zero imposed ratio, zero leftover space, or a zero shared ratio that a collection needs; otherwise one row per collection with `space_needed * fill_ratio == measure`, imposed rows keeping their ratio and all other rows sharing one ratio |
| SpaceAllocator.ImposedSpaces | bookshift.py:151-158 | the first loop gives `measure / ratio` for imposed rows and None for the rest, with the book measure of each kind; it stops exactly on a zero ratio |
| SpaceAllocator.SharedSpaces | bookshift.py:167-174 | the second loop fills every None row with `measure / shared` and records each row's ratio; it stops exactly when such a row exists and the shared ratio is zero |
| SpaceAllocator.SetMeasurementTotalsAfter | bookshift.py:125-179 | the method returns exactly `Allocate(mlist, set_ratios, shelf_measure)` |
| SpaceAllocator.LeftoverBooksAgree | bookshift.py:155-161 | `leftover_books` (total minus imposed measure) equals `leftover_books2` |
| SpaceAllocator.PresentKeepsValues | bookshift.py:163 | the filter `[x for x in needed if x is not None]` keeps exactly the present values, and none when every row is None |
| SpaceAllocator.SumPresentIsSumOfPresent | bookshift.py:163 | `imposed_space_needed` is exactly the sum of the values that filter keeps |
| SpaceAllocator.NonImposedSpaceWithoutImposed | bookshift.py:163-165 | with no imposed ratio, `non_imposed_space` is the whole future shelf measure |
| SpaceAllocator.SharedRatioFillsLeftover | bookshift.py:161-166 | the shared ratio times the non-imposed space is exactly the leftover book measure |
| SpaceAllocator.AllocationConserves | bookshift.py:161-178 | with some collection on the shared ratio, the allotments add up to the total future shelf measure; otherwise they add up to the imposed space |
| FutureRunsum.Step | bookshift.py:218-248 | a shelf round fails exactly when the collection cursor or its successor is out of range where needed; the cursor stays or moves on by one |
| FutureRunsum.StepWithin | bookshift.py:218-219 | a shelf inside the allotment is measured at the current ratio and added to pointer, units and runsum |
| FutureRunsum.StepOnBoundary | bookshift.py:234-243 | a shelf that ends exactly on the allotment resets the pointer, moves to the next collection and is measured at that collection's ratio |
| FutureRunsum.StepAcross | bookshift.py:220-233 | a shelf that crosses the allotment's end is measured as two parts at the two ratios; a split last shelf adds nothing |
| FutureRunsum.WalkTo | bookshift.py:206-248 | a successful walk has a non-empty runsum that starts with its initial 0, and its only failure is an out-of-range lookup |
| FutureRunsum.RunsumAfter | bookshift.py:183-250 | the loop returns exactly `FutureRunsumOf(shelf_measure, set_ratios)` |
| FutureRunsum.StepShape | bookshift.py:240-248 | each round appends one book measure and its new total, except a split last shelf |
| FutureRunsum.WalkShape | bookshift.py:206-248 | after k shelves runsum is 0 followed by the running sum of the book measures, with k of them, or k - 1 only after the last shelf (`StepAcross` says when) |
| FutureRunsum.FutureRunsumShape | bookshift.py:206-250 | the returned running sum is the running sum of `units_per_shelf`, which has one entry per shelf or, after a split last shelf, one fewer (`WalkShape`, `StepAcross`) |
| FutureRunsum.SingleCollectionWalk | bookshift.py:218-219 | with one collection the walk succeeds exactly while every prefix of the shelves stays inside the allotment |
| FutureRunsum.SingleCollectionFails | bookshift.py:234-241 | a single collection with no imposed ratio always makes the walk fail, once it reaches the end of the allotment |
| FutureRunsum.CollectionAdvancesByOne | bookshift.py:213-238 | the collection cursor never moves back and moves on by at most one collection per shelf |
| WaypointMapper.Advance | bookshift.py:272-273 | the inner loop passes only shelves below the item, and stops at the first shelf that reaches it or at the last shelf |
| WaypointMapper.SkipShelves | bookshift.py:272-273 | the while loop stops where `Advance` does |
| WaypointMapper.UnitsInto | bookshift.py:276-280 | the offset past the previous shelf's running sum (index -1 for shelf 0), or the item itself when that is negative |
| WaypointMapper.WaypointPrefixAt | bookshift.py:271-281 | entry j of both columns depends only on item j and the cursor after it |
| WaypointMapper.Waypoints | bookshift.py:268-282 | fails exactly when list1 is not empty and list2 is; otherwise both columns have list1's length |
| WaypointMapper.WaypointCalc | bookshift.py:253-282 | the loop returns exactly `Waypoints(list1, list2)` |
| WaypointMapper.WaypointsInRange | bookshift.py:272-275 | every waypoint is a shelf number 1..len(list2) |
| WaypointMapper.CursorMonotone | bookshift.py:270-273 | the shelf cursor never moves back |
| WaypointMapper.WaypointsMonotone | bookshift.py:272-275 | waypoints never decrease |
| WaypointMapper.CursorIsFirstAtLeast | bookshift.py:270-273 | for an ordered list1 the carried cursor finds the first shelf whose running sum reaches the item, or the last shelf |
| WaypointMapper.UnitsPastPreviousShelf | bookshift.py:276-281 | for an ordered list1 a book past shelf 1 gets `item - list2[w - 2]`, which is positive |
| WaypointMapper.UnitsOnFirstShelf | bookshift.py:276-280 | a book on shelf 1 is measured against `list2[-1]` and keeps its own value when the difference is negative |
| WaypointMapper.WaypointsExample | bookshift.py:268-282 | `[10, 20, 30]` against `[15, 30]` gives waypoints `[1, 2, 2]` and offsets `[10, 5, 15]` |
| WaypointMapper.WaypointPretty | bookshift.py:285-299 | fails exactly when the units list is shorter than the waypoints; otherwise each phrase is the opening `first_bool` selects, the formatted units, " in/cm into shelf " and the shelf number |
| WaypointMapper.PrettyReadsBack | bookshift.py:285-299 | every phrase starts with its opening, and its trailing digits read back as the shelf number |

## Left out

- File discovery, CSV reading, console messages and output writing are left out. This
  covers `get_file_data`, `csv_ingest`, `mkdir` and `to_csv` (bookshift.py:31-75, 381-389).
  The `sys.exit(1)` after a length mismatch is the `ListsNotSameLength` fault.
- `float_check` (bookshift.py:14-28) and every string-to-float conversion are left out.
  - Measures and ratios arrive already parsed as reals.
  - An imposed fill ratio is `Option<real>`, where a blank cell is `None`.
  - The `float()` calls in `running_sum` and `runsum_after` therefore have nothing to do.
- CalculatedData.MeasureColumn: the `measure` column must already hold reals. A column of
  text is the `WrongColumnType` fault, where Python would parse each cell with `float()`.
- The top-level script (bookshift.py:351-379) is left out because it is pandas glue. It
  builds DataFrames, casts types, groups the measures by `col_num2` and chains the stages.
  - The per-collection book totals are an input sequence, aligned row by row with the ratio
    table as the code assumes.
  - The script also assigns the `runsum_after` lists back into a DataFrame. A split last
    shelf makes `units_per_shelf` one entry short, which pandas would reject. That
    assignment is not modelled.
- Floating-point rounding is left out because all arithmetic is exact.
- SpaceAllocator.Allocate, SpaceAllocator.SharedSpaces: the divisions at bookshift.py:166
  and 171 have NumPy operands. With a zero divisor the program carries on with inf or nan. The model stops with
  `DivisionByZero` instead, since exact reals have no inf. The division at line 153 raises
  `ZeroDivisionError` in Python too.
- SpaceAllocator.Allocate: for imposed rows, Python's `fill_ratio` column holds the ratio's
  original text. The model stores the parsed real.
- WaypointMapper.WaypointPretty: the `"{:.1f}"` rendering (bookshift.py:292, 297) is the
  function parameter `format1f`, and nothing is assumed about it.
- The distinction between Python's `IndexError` on a list and pandas' `KeyError` on a
  Series label is left out. Both are the `IndexOutOfRange` fault.
- CalculatedData.ShelfTable.AddCalculatedData: the program's imported cells are all
  stripped strings. The model takes `measure` as a column of reals (see the
  CalculatedData.MeasureColumn line above), and a column of the other kind is
  `WrongColumnType`.
