/**
 * set_measurement_totals_after: how much future shelf space each collection receives.
 * A collection with an imposed fill ratio r gets measure / r; every other collection
 * shares one leftover ratio, chosen so that the allotments fill the future shelves.
 */
module SpaceAllocator {
  import opened Outcomes
  import opened ColumnDeriver

  /** A row of the collections table: an id and its imposed fill ratio (None when blank). */
  datatype RatioRow = RatioRow(colNum: string, imposedFillRatio: Option<real>)

  /** A row of the allocation table the program writes out. */
  datatype Allocation = Allocation(
    colNum: string,
    imposedFillRatio: Option<real>,
    booksMeasure: real,
    fillRatio: real,
    spaceNeeded: real)

  /** Exact division, kept as one named term so that proofs match it rather than expand it. */
  function Div(a: real, b: real): real
    requires b != 0.0
  {
    a / b
  }

  predicate NoZeroRatio(setRatios: seq<RatioRow>)
  {
    forall i :: 0 <= i < |setRatios| ==> setRatios[i].imposedFillRatio != Some(0.0)
  }

  /** Some collection has no imposed ratio and takes the leftover one. */
  predicate HasLeftover(setRatios: seq<RatioRow>)
  {
    exists i :: 0 <= i < |setRatios| && setRatios[i].imposedFillRatio.None?
  }

  /** The book measure of the imposed collections among the first k rows. */
  function ImposedBookMeasure(mlist: seq<real>, setRatios: seq<RatioRow>, k: nat): real
    requires k <= |mlist| && k <= |setRatios|
  {
    if k == 0 then 0.0
    else ImposedBookMeasure(mlist, setRatios, k - 1) +
         (if setRatios[k - 1].imposedFillRatio.Some? then mlist[k - 1] else 0.0)
  }

  /** The book measure of the other collections among the first k rows (leftover_books2). */
  function LeftoverBookMeasure(mlist: seq<real>, setRatios: seq<RatioRow>, k: nat): real
    requires k <= |mlist| && k <= |setRatios|
  {
    if k == 0 then 0.0
    else LeftoverBookMeasure(mlist, setRatios, k - 1) +
         (if setRatios[k - 1].imposedFillRatio.None? then mlist[k - 1] else 0.0)
  }

  /** The `needed` list after the first loop: measure / ratio for imposed rows, None for the rest. */
  function ImposedNeeded(mlist: seq<real>, setRatios: seq<RatioRow>): (r: seq<Option<real>>)
    requires |mlist| == |setRatios| && NoZeroRatio(setRatios)
    ensures |r| == |setRatios|
  {
    seq(|setRatios|, i requires 0 <= i < |setRatios| =>
      match setRatios[i].imposedFillRatio
      case Some(ratio) => Some(Div(mlist[i], ratio))
      case None => None)
  }

  /** [x for x in needed if x is not None]: the present values, in order. */
  function Present(needed: seq<Option<real>>): seq<real>
  {
    if needed == [] then []
    else Present(needed[..|needed| - 1]) + match needed[|needed| - 1] case Some(x) => [x] case None => []
  }

  /** sum([x for x in needed if x is not None]), as the program's loop adds it up. */
  function SumPresent(needed: seq<Option<real>>): real
  {
    if needed == [] then 0.0
    else SumPresent(needed[..|needed| - 1]) +
         (match needed[|needed| - 1] case Some(x) => x case None => 0.0)
  }

  /** non_imposed_space: future shelf measure left once the imposed collections are placed. */
  function NonImposedSpace(mlist: seq<real>, setRatios: seq<RatioRow>, shelfMeasure: seq<real>): real
    requires |mlist| == |setRatios| && NoZeroRatio(setRatios)
  {
    Sum(shelfMeasure) - SumPresent(ImposedNeeded(mlist, setRatios))
  }

  /** fill_ratio_leftover_books: leftover book measure over leftover shelf space. */
  function SharedRatio(mlist: seq<real>, setRatios: seq<RatioRow>, shelfMeasure: seq<real>): real
    requires |mlist| == |setRatios| && NoZeroRatio(setRatios)
    requires NonImposedSpace(mlist, setRatios, shelfMeasure) != 0.0
  {
    Div(Sum(mlist) - ImposedBookMeasure(mlist, setRatios, |setRatios|), NonImposedSpace(mlist, setRatios, shelfMeasure))
  }

  /** The filter keeps exactly the present values, and none when every row is None. */
  lemma {:induction false} PresentKeepsValues(needed: seq<Option<real>>)
    ensures forall x :: x in Present(needed) <==> Some(x) in needed
    ensures (forall i :: 0 <= i < |needed| ==> needed[i].None?) ==> Present(needed) == []
    decreases |needed|
  {
    if needed != [] {
      var front := needed[..|needed| - 1];
      PresentKeepsValues(front);
      assert needed == front + [needed[|needed| - 1]];
    }
  }

  /** The loop's total is the sum of the present values. */
  lemma {:induction false} SumPresentIsSumOfPresent(needed: seq<Option<real>>)
    ensures SumPresent(needed) == Sum(Present(needed))
    decreases |needed|
  {
    if needed != [] {
      var front := needed[..|needed| - 1];
      var last := match needed[|needed| - 1] case Some(x) => [x] case None => [];
      SumPresentIsSumOfPresent(front);
      SumConcat(Present(front), last);
    }
  }

  /** With no imposed ratio anywhere, the non-imposed space is the whole future shelf measure. */
  lemma NonImposedSpaceWithoutImposed(mlist: seq<real>, setRatios: seq<RatioRow>, shelfMeasure: seq<real>)
    requires |mlist| == |setRatios|
    requires forall i :: 0 <= i < |setRatios| ==> setRatios[i].imposedFillRatio.None?
    ensures NoZeroRatio(setRatios)
    ensures NonImposedSpace(mlist, setRatios, shelfMeasure) == Sum(shelfMeasure)
  {
    var needed := ImposedNeeded(mlist, setRatios);
    PresentKeepsValues(needed);
    SumPresentIsSumOfPresent(needed);
    assert Sum([]) == 0.0;
  }

  /** The leftover space at the shared ratio holds exactly the leftover book measure. */
  lemma SharedRatioFillsLeftover(mlist: seq<real>, setRatios: seq<RatioRow>, shelfMeasure: seq<real>)
    requires |mlist| == |setRatios| && NoZeroRatio(setRatios)
    requires NonImposedSpace(mlist, setRatios, shelfMeasure) != 0.0
    ensures SharedRatio(mlist, setRatios, shelfMeasure) * NonImposedSpace(mlist, setRatios, shelfMeasure) ==
            LeftoverBookMeasure(mlist, setRatios, |setRatios|)
  {
    LeftoverBooksAgree(mlist, setRatios);
    var leftover := Sum(mlist) - ImposedBookMeasure(mlist, setRatios, |setRatios|);
    var space := NonImposedSpace(mlist, setRatios, shelfMeasure);
    assert SharedRatio(mlist, setRatios, shelfMeasure) == Div(leftover, space);
    DivTimes(leftover, space);
  }

  lemma DivTimes(a: real, b: real)
    requires b != 0.0
    ensures Div(a, b) * b == a
  {
  }

  function AllocationRow(mlist: seq<real>, setRatios: seq<RatioRow>, i: nat, shared: real): Allocation
    requires |mlist| == |setRatios| && i < |setRatios|
    requires NoZeroRatio(setRatios)
    requires setRatios[i].imposedFillRatio.None? ==> shared != 0.0
  {
    var row := setRatios[i];
    match row.imposedFillRatio
    case Some(ratio) => Allocation(row.colNum, row.imposedFillRatio, mlist[i], ratio, Div(mlist[i], ratio))
    case None => Allocation(row.colNum, row.imposedFillRatio, mlist[i], shared, Div(mlist[i], shared))
  }

  /**
   * The allocation table, or the way the program stops: a length mismatch exits, and a
   * zero imposed ratio, no space left after the imposed collections, or a zero shared
   * ratio with some collection depending on it divides by zero.
   */
  function Allocate(mlist: seq<real>, setRatios: seq<RatioRow>, shelfMeasure: seq<real>): (r: Result<seq<Allocation>>)
    ensures r.Fail? <==>
              |mlist| != |setRatios| || !NoZeroRatio(setRatios) ||
              NonImposedSpace(mlist, setRatios, shelfMeasure) == 0.0 ||
              (HasLeftover(setRatios) && SharedRatio(mlist, setRatios, shelfMeasure) == 0.0)
    ensures r.Fail? ==> r.fault == if |mlist| != |setRatios| then ListsNotSameLength else DivisionByZero
    ensures r.Ok? ==> |r.value| == |setRatios|
    ensures r.Ok? ==> forall i :: 0 <= i < |r.value| ==>
              r.value[i].colNum == setRatios[i].colNum &&
              r.value[i].imposedFillRatio == setRatios[i].imposedFillRatio &&
              r.value[i].booksMeasure == mlist[i] &&
              r.value[i].fillRatio != 0.0 &&
              r.value[i].spaceNeeded * r.value[i].fillRatio == mlist[i]
    ensures r.Ok? ==> forall i :: 0 <= i < |r.value| && setRatios[i].imposedFillRatio.Some? ==>
              r.value[i].fillRatio == setRatios[i].imposedFillRatio.value
    ensures r.Ok? ==> forall i, j ::
              (0 <= i < |r.value| && 0 <= j < |r.value| &&
               setRatios[i].imposedFillRatio.None? && setRatios[j].imposedFillRatio.None?) ==>
              r.value[i].fillRatio == r.value[j].fillRatio
  {
    if |mlist| != |setRatios| then Fail(ListsNotSameLength)
    else if !NoZeroRatio(setRatios) then Fail(DivisionByZero)
    else if NonImposedSpace(mlist, setRatios, shelfMeasure) == 0.0 then Fail(DivisionByZero)
    else
      var shared := SharedRatio(mlist, setRatios, shelfMeasure);
      if HasLeftover(setRatios) && shared == 0.0 then Fail(DivisionByZero)
      else Ok(seq(|setRatios|, i requires 0 <= i < |setRatios| => AllocationRow(mlist, setRatios, i, shared)))
  }

  /**
   * The first loop of set_measurement_totals_after: measure / ratio for each imposed row and
   * None for the rest, with the book measures of both kinds of rows.
   */
  method ImposedSpaces(mlist: seq<real>, setRatios: seq<RatioRow>)
    returns (r: Result<seq<Option<real>>>, imposedBookMeasure: real, leftoverBooks2: real)
    requires |mlist| == |setRatios|
    ensures r.Fail? <==> !NoZeroRatio(setRatios)
    ensures r.Fail? ==> r.fault == DivisionByZero
    ensures r.Ok? ==> r.value == ImposedNeeded(mlist, setRatios)
    ensures r.Ok? ==> imposedBookMeasure == ImposedBookMeasure(mlist, setRatios, |setRatios|)
    ensures r.Ok? ==> leftoverBooks2 == LeftoverBookMeasure(mlist, setRatios, |setRatios|)
  {
    var needed: seq<Option<real>> := [];
    imposedBookMeasure := 0.0;
    leftoverBooks2 := 0.0;
    for itemNum := 0 to |setRatios|
      invariant |needed| == itemNum
      invariant forall k :: 0 <= k < itemNum ==> setRatios[k].imposedFillRatio != Some(0.0)
      invariant forall k :: 0 <= k < itemNum ==>
                  needed[k] == match setRatios[k].imposedFillRatio
                               case Some(ratio) => Some(Div(mlist[k], ratio))
                               case None => None
      invariant imposedBookMeasure == ImposedBookMeasure(mlist, setRatios, itemNum)
      invariant leftoverBooks2 == LeftoverBookMeasure(mlist, setRatios, itemNum)
    {
      match setRatios[itemNum].imposedFillRatio
      case Some(ratio) =>
        if ratio == 0.0 {
          return Fail(DivisionByZero), imposedBookMeasure, leftoverBooks2;
        }
        needed := needed + [Some(Div(mlist[itemNum], ratio))];
        imposedBookMeasure := imposedBookMeasure + mlist[itemNum];
      case None =>
        needed := needed + [None];
        leftoverBooks2 := leftoverBooks2 + mlist[itemNum];
    }
    r := Ok(needed);
  }

  /**
   * The second loop of set_measurement_totals_after: every row without an imposed ratio
   * receives measure / shared, and each row records the ratio it was given.
   */
  method SharedSpaces(mlist: seq<real>, setRatios: seq<RatioRow>, needed: seq<Option<real>>, shared: real)
    returns (r: Result<seq<Allocation>>)
    requires |mlist| == |setRatios| && NoZeroRatio(setRatios)
    requires needed == ImposedNeeded(mlist, setRatios)
    ensures r.Fail? <==> HasLeftover(setRatios) && shared == 0.0
    ensures r.Fail? ==> r.fault == DivisionByZero
    ensures r.Ok? ==> r.value == seq(|setRatios|, i requires 0 <= i < |setRatios| => AllocationRow(mlist, setRatios, i, shared))
  {
    var spaces := needed;
    var ratios: seq<real> := [];
    for itemNum := 0 to |spaces|
      invariant |spaces| == |setRatios| && |ratios| == itemNum
      invariant forall k :: itemNum <= k < |spaces| ==> spaces[k] == needed[k]
      invariant forall k :: 0 <= k < itemNum && setRatios[k].imposedFillRatio.None? ==> shared != 0.0
      invariant forall k :: 0 <= k < itemNum ==>
                  spaces[k] == Some(AllocationRow(mlist, setRatios, k, shared).spaceNeeded) &&
                  ratios[k] == AllocationRow(mlist, setRatios, k, shared).fillRatio
    {
      if spaces[itemNum].None? {
        if shared == 0.0 {
          return Fail(DivisionByZero);
        }
        spaces := spaces[itemNum := Some(Div(mlist[itemNum], shared))];
        ratios := ratios + [shared];
      } else {
        ratios := ratios + [setRatios[itemNum].imposedFillRatio.value];
      }
    }
    r := Ok(seq(|setRatios|, i requires 0 <= i < |setRatios| =>
      Allocation(setRatios[i].colNum, setRatios[i].imposedFillRatio, mlist[i], ratios[i], spaces[i].value)));
    assert r.value == seq(|setRatios|, i requires 0 <= i < |setRatios| => AllocationRow(mlist, setRatios, i, shared));
  }

  /**
   * set_measurement_totals_after, given the per-collection book totals (aligned with the
   * collection rows) and the future shelf measures.
   */
  method SetMeasurementTotalsAfter(mlist: seq<real>, setRatios: seq<RatioRow>, shelfMeasure: seq<real>)
    returns (r: Result<seq<Allocation>>)
    ensures r == Allocate(mlist, setRatios, shelfMeasure)
  {
    var totalBookMeasure := Sum(mlist);
    if |mlist| != |setRatios| {
      return Fail(ListsNotSameLength);
    }
    var needed, imposedBookMeasure, leftoverBooks2 := ImposedSpaces(mlist, setRatios);
    if needed.Fail? {
      return Fail(needed.fault);
    }
    var leftoverBooks := totalBookMeasure - imposedBookMeasure;
    LeftoverBooksAgree(mlist, setRatios);
    assert leftoverBooks == leftoverBooks2;
    var imposedSpaceNeeded := SumPresent(needed.value);
    var totalShelfSpace := Sum(shelfMeasure);
    var nonImposedSpace := totalShelfSpace - imposedSpaceNeeded;
    if nonImposedSpace == 0.0 {
      return Fail(DivisionByZero);
    }
    var fillRatioLeftoverBooks := Div(leftoverBooks, nonImposedSpace);
    r := SharedSpaces(mlist, setRatios, needed.value, fillRatioLeftoverBooks);
  }

  /** The two leftover book measures the program computes agree (leftover_books == leftover_books2). */
  lemma LeftoverBooksAgree(mlist: seq<real>, setRatios: seq<RatioRow>)
    requires |mlist| == |setRatios|
    ensures Sum(mlist) - ImposedBookMeasure(mlist, setRatios, |mlist|) == LeftoverBookMeasure(mlist, setRatios, |mlist|)
  {
    for k := 0 to |mlist|
      invariant Sum(mlist[..k]) == ImposedBookMeasure(mlist, setRatios, k) + LeftoverBookMeasure(mlist, setRatios, k)
    {
      assert mlist[..k + 1][..k] == mlist[..k];
    }
    assert mlist[..|mlist|] == mlist;
  }

  /** The space_needed column of the allocation table. */
  function SpaceColumn(allocs: seq<Allocation>): (r: seq<real>)
    ensures |r| == |allocs|
  {
    seq(|allocs|, i requires 0 <= i < |allocs| => allocs[i].spaceNeeded)
  }

  /** The allotments of the first k rows, with `shared` as the leftover ratio. */
  lemma {:induction false} RowSpacesSum(mlist: seq<real>, setRatios: seq<RatioRow>, shared: real, k: nat)
    requires |mlist| == |setRatios| && NoZeroRatio(setRatios) && shared != 0.0
    requires k <= |setRatios|
    ensures Sum(seq(k, i requires 0 <= i < k => AllocationRow(mlist, setRatios, i, shared).spaceNeeded)) ==
            SumPresent(ImposedNeeded(mlist, setRatios)[..k]) + LeftoverBookMeasure(mlist, setRatios, k) / shared
    decreases k
  {
    if k > 0 {
      RowSpacesSum(mlist, setRatios, shared, k - 1);
      var spaces := seq(k, i requires 0 <= i < k => AllocationRow(mlist, setRatios, i, shared).spaceNeeded);
      assert spaces[..k - 1] == seq(k - 1, i requires 0 <= i < k - 1 => AllocationRow(mlist, setRatios, i, shared).spaceNeeded);
      var needed := ImposedNeeded(mlist, setRatios);
      assert needed[..k][..k - 1] == needed[..k - 1];
      SplitQuotient(LeftoverBookMeasure(mlist, setRatios, k - 1), mlist[k - 1], shared);
    }
  }

  /** The imposed allotments of the first k rows. */
  lemma {:induction false} ImposedRowSpacesSum(mlist: seq<real>, setRatios: seq<RatioRow>, shared: real, k: nat)
    requires |mlist| == |setRatios| && NoZeroRatio(setRatios) && !HasLeftover(setRatios)
    requires k <= |setRatios|
    ensures Sum(seq(k, i requires 0 <= i < k => AllocationRow(mlist, setRatios, i, shared).spaceNeeded)) ==
            SumPresent(ImposedNeeded(mlist, setRatios)[..k])
    decreases k
  {
    if k > 0 {
      ImposedRowSpacesSum(mlist, setRatios, shared, k - 1);
      var spaces := seq(k, i requires 0 <= i < k => AllocationRow(mlist, setRatios, i, shared).spaceNeeded);
      assert spaces[..k - 1] == seq(k - 1, i requires 0 <= i < k - 1 => AllocationRow(mlist, setRatios, i, shared).spaceNeeded);
      var needed := ImposedNeeded(mlist, setRatios);
      assert needed[..k][..k - 1] == needed[..k - 1];
      assert setRatios[k - 1].imposedFillRatio.Some?;
    }
  }

  /**
   * Conservation: when some collection takes the leftover ratio, the allotments add up
   * to exactly the future shelf measure; otherwise they add up to the imposed space.
   */
  lemma AllocationConserves(mlist: seq<real>, setRatios: seq<RatioRow>, shelfMeasure: seq<real>)
    requires Allocate(mlist, setRatios, shelfMeasure).Ok?
    ensures HasLeftover(setRatios) ==>
              Sum(SpaceColumn(Allocate(mlist, setRatios, shelfMeasure).value)) == Sum(shelfMeasure)
    ensures !HasLeftover(setRatios) ==>
              Sum(SpaceColumn(Allocate(mlist, setRatios, shelfMeasure).value)) ==
              SumPresent(ImposedNeeded(mlist, setRatios))
  {
    var n := |setRatios|;
    var space := SpaceColumn(Allocate(mlist, setRatios, shelfMeasure).value);
    var needed := ImposedNeeded(mlist, setRatios);
    var shared := SharedRatio(mlist, setRatios, shelfMeasure);
    assert needed[..n] == needed;
    if HasLeftover(setRatios) {
      assert space == seq(n, i requires 0 <= i < n => AllocationRow(mlist, setRatios, i, shared).spaceNeeded);
      RowSpacesSum(mlist, setRatios, shared, n);
      LeftoverBooksAgree(mlist, setRatios);
      LeftoverShareFills(Sum(mlist) - ImposedBookMeasure(mlist, setRatios, n), NonImposedSpace(mlist, setRatios, shelfMeasure));
    } else {
      assert space == seq(n, i requires 0 <= i < n => AllocationRow(mlist, setRatios, i, shared).spaceNeeded);
      ImposedRowSpacesSum(mlist, setRatios, shared, n);
    }
  }

  lemma SplitQuotient(a: real, b: real, d: real)
    requires d != 0.0
    ensures (a + b) / d == a / d + b / d
  {
  }

  /** Dividing the leftover books by their shared ratio gives back the leftover space. */
  lemma LeftoverShareFills(books: real, space: real)
    requires space != 0.0 && books / space != 0.0
    ensures books / (books / space) == space
  {
    assert books != 0.0;
  }
}
