/**
 * add_calculated_data: the columns derived from an imported shelf list, added in place to
 * the dictionary of columns that holds it.
 */
module CalculatedData {
  import opened Outcomes
  import opened Text
  import opened ColumnDeriver

  /** One column of the dictionary: text cells, whole-number counters, or measures. */
  datatype Column = Strings(texts: seq<string>) | Counts(counts: seq<nat>) | Measures(measures: seq<real>)

  type Columns = map<string, Column>

  // Imported columns.
  const SctnIncrement: string := "sctn_increment"
  const CallNum: string := "call_num"
  const Measure: string := "measure"
  const ColNum: string := "col_num"
  const RangeIncrement: string := "range_increment"

  // Calculated columns.
  const ShelfNum: string := "shelf_num"
  const SectionNum: string := "section_num"
  const RangeNum: string := "range_num"
  const Runsum: string := "runsum"
  const ColNum2: string := "col_num2"
  const ShelfPerSection: string := "shelf_per_section"
  const SectionPerRange: string := "section_per_range"

  predicate IsCalculated(key: string)
  {
    key == ShelfNum || key == SectionNum || key == RangeNum || key == Runsum ||
    key == ColNum2 || key == ShelfPerSection || key == SectionPerRange
  }

  /** A text column looked up by name: a KeyError when missing, a type error when not text. */
  function TextColumn(m: Columns, key: string): (r: Result<seq<string>>)
    ensures r.Ok? <==> key in m && m[key].Strings?
    ensures r.Ok? ==> r.value == m[key].texts
    ensures r.Fail? ==> r.fault == if key in m then WrongColumnType else IndexOutOfRange
  {
    if key !in m then Fail(IndexOutOfRange)
    else if !m[key].Strings? then Fail(WrongColumnType)
    else Ok(m[key].texts)
  }

  /** A measure column looked up by name. */
  function MeasureColumn(m: Columns, key: string): (r: Result<seq<real>>)
    ensures r.Ok? <==> key in m && m[key].Measures?
    ensures r.Ok? ==> r.value == m[key].measures
    ensures r.Fail? ==> r.fault == if key in m then WrongColumnType else IndexOutOfRange
  {
    if key !in m then Fail(IndexOutOfRange)
    else if !m[key].Measures? then Fail(WrongColumnType)
    else Ok(m[key].measures)
  }

  /** tuple(range(1, n + 1)). */
  function ShelfNumbers(n: nat): (r: seq<nat>)
    ensures |r| == n
  {
    seq(n, i => i + 1)
  }

  /** Shelves are numbered from 1, each one more than the shelf before it. */
  lemma ShelfNumbersFromOne(n: nat)
    ensures n > 0 ==> ShelfNumbers(n)[0] == 1
    ensures forall i :: 0 < i < n ==> ShelfNumbers(n)[i] == ShelfNumbers(n)[i - 1] + 1
  {
  }

  /** The shelf's position within its section, as item_count_per_value numbers it. */
  function ShelfPositions(markers: seq<string>): seq<nat>
  {
    ItemCounts(ShelfNumbers(|markers|), SectionRangeNumbers(markers))
  }

  /**
   * The range numbering and the columns that depend on the kind of list: for the original
   * list the range number, running sum and filled-in collection id; for the future list only
   * the range number.
   */
  function ListColumns(base: Columns, listType: bool): Result<(seq<nat>, Columns)>
  {
    if listType then
      match TextColumn(base, CallNum)
      case Fail(f) => Fail(f)
      case Ok(callNum) =>
        var ranges := SectionRangeNumbers(callNum);
        match MeasureColumn(base, Measure)
        case Fail(f) => Fail(f)
        case Ok(measure) =>
          match TextColumn(base, ColNum)
          case Fail(f) => Fail(f)
          case Ok(colNum) =>
            if |colNum| == 0 then Fail(MaxOfEmpty)
            else Ok((ranges, base[RangeNum := Counts(ranges)][Runsum := Measures(RunningSum(measure))]
                                [ColNum2 := Strings(FilledColumn(colNum))]))
    else
      match TextColumn(base, RangeIncrement)
      case Fail(f) => Fail(f)
      case Ok(rangeIncrement) =>
        var ranges := SectionRangeNumbers(rangeIncrement);
        Ok((ranges, base[RangeNum := Counts(ranges)]))
  }

  /** The dictionary add_calculated_data leaves behind when it completes. */
  function Calculated(m: Columns, listType: bool): Result<Columns>
  {
    match TextColumn(m, SctnIncrement)
    case Fail(f) => Fail(f)
    case Ok(sctn) =>
      var sections := SectionRangeNumbers(sctn);
      var base := m[ShelfNum := Counts(ShelfNumbers(|sctn|))][SectionNum := Counts(sections)];
      match ListColumns(base, listType)
      case Fail(f) => Fail(f)
      case Ok(lc) =>
        if !(|sections| <= 1 || |lc.0| >= |sections| - 1) then Fail(IndexOutOfRange)
        else Ok(lc.1[ShelfPerSection := Counts(ShelfPositions(sctn))]
                    [SectionPerRange := Counts(ItemCounts(sections, lc.0))])
  }

  /** The imported shelf list, a dictionary of named columns. */
  class ShelfTable {
    var data: Columns

    constructor (imported: Columns)
      ensures data == imported
    {
      data := imported;
    }

    /**
     * add_calculated_data: adds the calculated columns to the dictionary. When a lookup or a
     * derivation fails part way, the columns added so far stay and the imported ones are
     * untouched.
     */
    method AddCalculatedData(listType: bool) returns (r: Result<Columns>)
      modifies this
      ensures r == Calculated(old(data), listType)
      ensures r.Ok? ==> data == r.value
      ensures r.Fail? ==> forall key :: key in old(data) && !IsCalculated(key) ==>
                            key in data && data[key] == old(data)[key]
    {
      ghost var imported := data;
      var sctnColumn := TextColumn(data, SctnIncrement);
      if sctnColumn.Fail? {
        return Fail(sctnColumn.fault);
      }
      var sctn := sctnColumn.value;
      data := data[ShelfNum := Counts(ShelfNumbers(|sctn|))];
      var sections := SectionRangeCount(sctn);
      data := data[SectionNum := Counts(sections)];
      ghost var base := data;
      assert base == imported[ShelfNum := Counts(ShelfNumbers(|sctn|))][SectionNum := Counts(SectionRangeNumbers(sctn))];
      var ranges := AddListColumns(listType);
      if ranges.Fail? {
        assert ListColumns(base, listType) == Fail(ranges.fault);
        return Fail(ranges.fault);
      }
      assert ListColumns(base, listType) == Ok((ranges.value, data));
      r := AddPositionColumns(sctn, sections, ranges.value);
    }

    /**
     * The last part of add_calculated_data: each shelf's position within its section, then
     * each section's position within its range, which needs a range number for every row
     * but the last.
     */
    method AddPositionColumns(sctn: seq<string>, sections: seq<nat>, ranges: seq<nat>) returns (r: Result<Columns>)
      requires sections == SectionRangeNumbers(sctn)
      modifies this
      ensures var withShelves := old(data)[ShelfPerSection := Counts(ShelfPositions(sctn))];
              r == if !(|sections| <= 1 || |ranges| >= |sections| - 1) then Fail(IndexOutOfRange)
                   else Ok(withShelves[SectionPerRange := Counts(ItemCounts(sections, ranges))])
      ensures r.Ok? ==> data == r.value
      ensures r.Fail? ==> data == old(data)[ShelfPerSection := Counts(ShelfPositions(sctn))]
    {
      var shelfPerSection := ItemCountPerValue(ShelfNumbers(|sctn|), sections);
      data := data[ShelfPerSection := Counts(shelfPerSection)];
      if !(|sections| <= 1 || |ranges| >= |sections| - 1) {
        return Fail(IndexOutOfRange);
      }
      var sectionPerRange := ItemCountPerValue(sections, ranges);
      data := data[SectionPerRange := Counts(sectionPerRange)];
      return Ok(data);
    }

    /**
     * The middle part of add_calculated_data: the range numbering, and for an original list the
     * running sum and the filled-in collection ids, each stored as soon as it is computed.
     */
    method AddListColumns(listType: bool) returns (r: Result<seq<nat>>)
      modifies this
      ensures ListColumns(old(data), listType) == if r.Ok? then Ok((r.value, data)) else Fail(r.fault)
      ensures r.Fail? ==> forall key :: key in old(data) && !IsCalculated(key) ==>
                            key in data && data[key] == old(data)[key]
    {
      if listType {
        var callNum := TextColumn(data, CallNum);
        if callNum.Fail? {
          return Fail(callNum.fault);
        }
        var ranges := SectionRangeCount(callNum.value);
        data := data[RangeNum := Counts(ranges)];
        var measure := MeasureColumn(data, Measure);
        if measure.Fail? {
          return Fail(measure.fault);
        }
        data := data[Runsum := Measures(RunningSum(measure.value))];
        var colNum := TextColumn(data, ColNum);
        if colNum.Fail? {
          return Fail(colNum.fault);
        }
        var filled := SetCheck(colNum.value);
        if filled.Fail? {
          return Fail(filled.fault);
        }
        data := data[ColNum2 := Strings(filled.value)];
        return Ok(ranges);
      } else {
        var rangeIncrement := TextColumn(data, RangeIncrement);
        if rangeIncrement.Fail? {
          return Fail(rangeIncrement.fault);
        }
        var ranges := SectionRangeCount(rangeIncrement.value);
        data := data[RangeNum := Counts(ranges)];
        return Ok(ranges);
      }
    }
  }

  /** The columns a completed call needs, present and of the right kind. */
  predicate HasInputs(m: Columns, listType: bool)
  {
    TextColumn(m, SctnIncrement).Ok? &&
    if listType then TextColumn(m, CallNum).Ok? && MeasureColumn(m, Measure).Ok? && TextColumn(m, ColNum).Ok?
    else TextColumn(m, RangeIncrement).Ok?
  }

  /** The column whose markers start a new range. */
  function RangeMarkers(m: Columns, listType: bool): seq<string>
    requires HasInputs(m, listType)
  {
    if listType then m[CallNum].texts else m[RangeIncrement].texts
  }

  /**
   * add_calculated_data completes exactly when its inputs are there, the collection-id column
   * of an original list is not empty, and the range markers reach the second-to-last row.
   */
  lemma CalculatedOkIff(m: Columns, listType: bool)
    ensures Calculated(m, listType).Ok? <==>
              HasInputs(m, listType) &&
              (listType ==> |m[ColNum].texts| > 0) &&
              (|m[SctnIncrement].texts| <= 1 ||
               |RangeMarkers(m, listType)| >= |m[SctnIncrement].texts| - 1)
  {
  }

  /** The columns a completed call leaves, before the two position columns are added. */
  lemma CalculatedStages(m: Columns, listType: bool)
    requires Calculated(m, listType).Ok?
    ensures HasInputs(m, listType)
    ensures var sctn := m[SctnIncrement].texts;
            var sections := SectionRangeNumbers(sctn);
            var base := m[ShelfNum := Counts(ShelfNumbers(|sctn|))][SectionNum := Counts(sections)];
            var ranges := SectionRangeNumbers(RangeMarkers(m, listType));
            ListColumns(base, listType).Ok? &&
            ListColumns(base, listType).value.0 == ranges &&
            Calculated(m, listType).value ==
              ListColumns(base, listType).value.1[ShelfPerSection := Counts(ShelfPositions(sctn))]
                                                    [SectionPerRange := Counts(ItemCounts(sections, ranges))]
  {
    CalculatedOkIff(m, listType);
  }

  /** A completed call keeps every imported column that is not a calculated one. */
  lemma CalculatedKeepsImported(m: Columns, listType: bool)
    requires Calculated(m, listType).Ok?
    ensures var r := Calculated(m, listType).value;
            forall key :: key in m && !IsCalculated(key) ==> key in r && r[key] == m[key]
  {
    CalculatedStages(m, listType);
    var sctn := m[SctnIncrement].texts;
    var base := m[ShelfNum := Counts(ShelfNumbers(|sctn|))][SectionNum := Counts(SectionRangeNumbers(sctn))];
    ListColumnsKeeps(base, listType);
  }

  /** The list-dependent columns leave every column that is not a calculated one alone. */
  lemma ListColumnsKeeps(base: Columns, listType: bool)
    requires ListColumns(base, listType).Ok?
    ensures var lc := ListColumns(base, listType).value.1;
            forall key :: key in base && !IsCalculated(key) ==> key in lc && lc[key] == base[key]
  {
  }

  /**
   * A completed call adds one shelf number per row from 1, the section numbering and the
   * range numbering of the marker columns, and the positions within sections and ranges.
   */
  lemma CalculatedNumbering(m: Columns, listType: bool)
    requires Calculated(m, listType).Ok?
    ensures HasInputs(m, listType)
    ensures var r := Calculated(m, listType).value;
            var sctn := m[SctnIncrement].texts;
            var ranges := SectionRangeNumbers(RangeMarkers(m, listType));
            ShelfNum in r && r[ShelfNum] == Counts(ShelfNumbers(|sctn|)) &&
            SectionNum in r && r[SectionNum] == Counts(SectionRangeNumbers(sctn)) &&
            RangeNum in r && r[RangeNum] == Counts(ranges) &&
            ShelfPerSection in r && r[ShelfPerSection] == Counts(ShelfPositions(sctn)) &&
            SectionPerRange in r && r[SectionPerRange] == Counts(ItemCounts(SectionRangeNumbers(sctn), ranges))
  {
    CalculatedStages(m, listType);
  }

  /** For an original list a completed call also adds the running sum and the filled-in collection ids. */
  lemma CalculatedOriginalExtras(m: Columns)
    requires Calculated(m, true).Ok?
    ensures HasInputs(m, true)
    ensures var r := Calculated(m, true).value;
            Runsum in r && r[Runsum] == Measures(RunningSum(m[Measure].measures)) &&
            ColNum2 in r && r[ColNum2] == Strings(FilledColumn(m[ColNum].texts))
  {
    CalculatedStages(m, true);
  }

  /** For a future list a completed call adds exactly the five numbering columns. */
  lemma CalculatedFutureKeys(m: Columns)
    requires Calculated(m, false).Ok?
    ensures forall key :: key in Calculated(m, false).value <==>
              (key in m || key == ShelfNum || key == SectionNum || key == RangeNum ||
               key == ShelfPerSection || key == SectionPerRange)
  {
    CalculatedStages(m, false);
  }

  /** Past the first row, a section starts exactly where its marker is not blank. */
  lemma NewSectionAtMarker(markers: seq<string>, k: nat)
    requires 0 < k < |markers|
    ensures ResetAt(SectionRangeNumbers(markers), k) <==> !IsBlank(markers[k])
  {
    assert markers[..k + 1][..k] == markers[..k];
  }

  /** Section numbers never fall, and stay at the first row's number while the markers are blank. */
  lemma {:induction false} SectionsFromFirst(markers: seq<string>, i: nat)
    requires 0 < i < |markers|
    ensures var sections := SectionRangeNumbers(markers);
            sections[i] >= sections[0] &&
            (sections[i] == sections[0] <==> forall k :: 0 < k <= i ==> IsBlank(markers[k]))
    decreases i
  {
    assert markers[..i + 1][..i] == markers[..i];
    if i > 1 {
      SectionsFromFirst(markers, i - 1);
    }
  }

  /** Changes(shelf numbers) counts every row, since consecutive shelf numbers always differ. */
  lemma {:induction false} ShelfNumbersAlwaysChange(n: nat, lo: nat, hi: nat)
    requires 1 <= lo <= hi <= n
    ensures Changes(ShelfNumbers(n), lo, hi) == hi - lo
    decreases hi
  {
    if hi > lo {
      ShelfNumbersAlwaysChange(n, lo, hi - 1);
    }
  }

  /**
   * A shelf's position within its section: a shelf j rows after the non-blank marker that
   * opened its section is numbered j + 1, the last row included when its section opened on an
   * earlier row.
   */
  lemma ShelfPositionAfterMarker(markers: seq<string>, start: nat, i: nat)
    requires 0 < start < |markers| - 1 && start <= i < |markers|
    requires !IsBlank(markers[start])
    requires forall k :: start < k <= i ==> IsBlank(markers[k])
    ensures ShelfPositions(markers)[i] == i - start + 1
  {
    var n := |markers|;
    var sections := SectionRangeNumbers(markers);
    NewSectionAtMarker(markers, start);
    forall k | start < k <= i && k < n - 1
      ensures !ResetAt(sections, k)
    {
      NewSectionAtMarker(markers, k);
    }
    ItemCountsSinceReset(ShelfNumbers(n), sections, start, i);
    ShelfNumbersAlwaysChange(n, start + 1, i + 1);
  }

  /**
   * The first shelf only counts as a section start when a later marker opens another section
   * (row 0 is compared with the last row): a table whose rows after the first are all blank is
   * numbered 0, 1, 2, ... instead of 1, 2, 3, ...
   */
  lemma SingleSectionFromZero(markers: seq<string>)
    requires |markers| >= 2
    requires forall k :: 0 < k < |markers| ==> IsBlank(markers[k])
    ensures forall i :: 0 <= i < |markers| ==> ShelfPositions(markers)[i] == i
  {
    var n := |markers|;
    var sections := SectionRangeNumbers(markers);
    SectionsFromFirst(markers, n - 1);
    forall k | 0 < k < n - 1
      ensures !ResetAt(sections, k)
    {
      NewSectionAtMarker(markers, k);
    }
    forall i | 0 <= i < n
      ensures ShelfPositions(markers)[i] == i
    {
      ItemCountsBeforeReset(ShelfNumbers(n), sections, i);
      ShelfNumbersAlwaysChange(n, 1, i + 1);
    }
  }

  /** With a second section somewhere below, the first shelf is numbered 1. */
  lemma FirstShelfOpensSection(markers: seq<string>, k: nat)
    requires 0 < k < |markers| && !IsBlank(markers[k])
    ensures ShelfPositions(markers)[0] == 1
  {
    SectionsFromFirst(markers, |markers| - 1);
  }

  /**
   * The last shelf never starts a section: it is numbered one past the shelf before it, even
   * when its own marker is not blank.
   */
  lemma LastShelfNeverResets(markers: seq<string>)
    requires |markers| >= 2
    ensures ShelfPositions(markers)[|markers| - 1] == ShelfPositions(markers)[|markers| - 2] + 1
  {
  }
}
