/**
 * runsum_after: the running sum of the book measure each future shelf will hold, walking
 * the future shelves with a cursor (pointer, col_num) over the collections' allotments.
 */
module FutureRunsum {
  import opened Outcomes
  import opened ColumnDeriver
  import opened SpaceAllocator

  /**
   * What runsum_after carries from shelf to shelf: the space used of the current
   * collection's allotment, the current collection, and the two lists built so far
   * (runsum still with its leading 0).
   */
  datatype Walk = Walk(pointer: real, colNum: nat, unitsPerShelf: seq<real>, runsum: seq<real>)

  /** The book measure that a stretch of shelf holds at a collection's fill ratio. */
  function Books(shelf: real, fillRatio: real): real
  {
    shelf * fillRatio
  }

  function Last(s: seq<real>): real
    requires |s| > 0
  {
    s[|s| - 1]
  }

  /**
   * One round of the loop for a shelf of measure `item` (isLast: the final shelf).
   * A shelf inside the allotment is measured at the collection's ratio; a shelf that
   * ends exactly on the allotment moves to the next collection first and is measured at
   * its ratio; a shelf that crosses the end of the allotment is split between the two.
   */
  function Step(setRatios: seq<Allocation>, w: Walk, item: real, isLast: bool): (r: Result<Walk>)
    requires |w.runsum| > 0
    ensures r.Fail? <==>
              w.colNum >= |setRatios| ||
              (w.pointer + item >= setRatios[w.colNum].spaceNeeded && w.colNum + 1 >= |setRatios|)
    ensures r.Fail? ==> r.fault == IndexOutOfRange
    ensures r.Ok? ==> r.value.colNum < |setRatios|
    ensures r.Ok? ==> r.value.colNum == w.colNum || r.value.colNum == w.colNum + 1
  {
    var c := w.colNum;
    if c >= |setRatios| then Fail(IndexOutOfRange)
    else
      var needed := setRatios[c].spaceNeeded;
      if w.pointer < needed - item then
        var bookMeasure := Books(item, setRatios[c].fillRatio);
        Ok(Walk(w.pointer + item, c, w.unitsPerShelf + [bookMeasure], w.runsum + [Last(w.runsum) + bookMeasure]))
      else if w.pointer > needed - item then
        var firstPart := needed - w.pointer;
        var bookFirstPart := Books(firstPart, setRatios[c].fillRatio);
        if c + 1 >= |setRatios| then Fail(IndexOutOfRange)
        else
          var secondPart := item - firstPart;
          var bookSecondPart := Books(secondPart, setRatios[c + 1].fillRatio);
          if isLast then Ok(Walk(secondPart, c + 1, w.unitsPerShelf, w.runsum))
          else
            var bookMeasure := bookFirstPart + bookSecondPart;
            Ok(Walk(secondPart, c + 1, w.unitsPerShelf + [bookMeasure], w.runsum + [Last(w.runsum) + bookMeasure]))
      else if c + 1 >= |setRatios| then Fail(IndexOutOfRange)
      else
        var bookMeasure := Books(item, setRatios[c + 1].fillRatio);
        Ok(Walk(0.0, c + 1, w.unitsPerShelf + [bookMeasure], w.runsum + [Last(w.runsum) + bookMeasure]))
  }

  /** A shelf that fits inside the current allotment. */
  lemma StepWithin(setRatios: seq<Allocation>, w: Walk, item: real, isLast: bool)
    requires |w.runsum| > 0 && w.colNum < |setRatios|
    requires w.pointer < setRatios[w.colNum].spaceNeeded - item
    ensures var bm := Books(item, setRatios[w.colNum].fillRatio);
            Step(setRatios, w, item, isLast) ==
              Ok(Walk(w.pointer + item, w.colNum, w.unitsPerShelf + [bm], w.runsum + [Last(w.runsum) + bm]))
  {
  }

  /** A shelf that ends exactly on the current allotment, when a next collection exists. */
  lemma StepOnBoundary(setRatios: seq<Allocation>, w: Walk, item: real, isLast: bool)
    requires |w.runsum| > 0 && w.colNum + 1 < |setRatios|
    requires w.pointer == setRatios[w.colNum].spaceNeeded - item
    ensures var bm := Books(item, setRatios[w.colNum + 1].fillRatio);
            Step(setRatios, w, item, isLast) ==
              Ok(Walk(0.0, w.colNum + 1, w.unitsPerShelf + [bm], w.runsum + [Last(w.runsum) + bm]))
  {
  }

  /** A shelf that crosses the end of the current allotment, when a next collection exists. */
  lemma StepAcross(setRatios: seq<Allocation>, w: Walk, item: real, isLast: bool)
    requires |w.runsum| > 0 && w.colNum + 1 < |setRatios|
    requires w.pointer > setRatios[w.colNum].spaceNeeded - item
    ensures var firstPart := setRatios[w.colNum].spaceNeeded - w.pointer;
            var bm := Books(firstPart, setRatios[w.colNum].fillRatio) + Books(item - firstPart, setRatios[w.colNum + 1].fillRatio);
            Step(setRatios, w, item, isLast) ==
              if isLast then Ok(Walk(item - firstPart, w.colNum + 1, w.unitsPerShelf, w.runsum))
              else Ok(Walk(item - firstPart, w.colNum + 1, w.unitsPerShelf + [bm], w.runsum + [Last(w.runsum) + bm]))
  {
  }

  /** The cursor state after the first k future shelves. */
  function WalkTo(shelfMeasure: seq<real>, setRatios: seq<Allocation>, k: nat): (r: Result<Walk>)
    requires k <= |shelfMeasure|
    ensures r.Ok? ==> |r.value.runsum| > 0 && r.value.runsum[0] == 0.0
    ensures r.Fail? ==> r.fault == IndexOutOfRange
  {
    if k == 0 then Ok(Walk(0.0, 0, [], [0.0]))
    else
      match WalkTo(shelfMeasure, setRatios, k - 1)
      case Fail(f) => Fail(f)
      case Ok(w) => Step(setRatios, w, shelfMeasure[k - 1], k == |shelfMeasure|)
  }

  /** Once the walk has failed it stays failed. */
  lemma {:induction false} WalkFailPersists(shelfMeasure: seq<real>, setRatios: seq<Allocation>, k: nat, j: nat)
    requires k <= j <= |shelfMeasure|
    requires WalkTo(shelfMeasure, setRatios, k).Fail?
    ensures WalkTo(shelfMeasure, setRatios, j) == WalkTo(shelfMeasure, setRatios, k)
    decreases j
  {
    if j > k {
      WalkFailPersists(shelfMeasure, setRatios, k, j - 1);
    }
  }

  /** What runsum_after returns: the book measure per shelf and the running sum without its 0. */
  function FutureRunsumOf(shelfMeasure: seq<real>, setRatios: seq<Allocation>): Result<(seq<real>, seq<real>)>
  {
    match WalkTo(shelfMeasure, setRatios, |shelfMeasure|)
    case Fail(f) => Fail(f)
    case Ok(w) => Ok((w.unitsPerShelf, w.runsum[1..]))
  }

  /** runsum_after over the future shelf measures and the allocation table. */
  method RunsumAfter(shelfMeasure: seq<real>, setRatios: seq<Allocation>)
    returns (r: Result<(seq<real>, seq<real>)>)
    ensures r == FutureRunsumOf(shelfMeasure, setRatios)
  {
    var runsum: seq<real> := [0.0];
    var unitsPerShelf: seq<real> := [];
    var pointer := 0.0;
    var colNum: nat := 0;
    var appendNow := true;
    var bookFirstPart := 0.0;
    var bookSecondPart := 0.0;
    for itemNum := 0 to |shelfMeasure|
      invariant WalkTo(shelfMeasure, setRatios, itemNum) == Ok(Walk(pointer, colNum, unitsPerShelf, runsum))
      invariant itemNum < |shelfMeasure| ==> appendNow && |runsum| == itemNum + 1
    {
      var item := shelfMeasure[itemNum];
      ghost var next := WalkTo(shelfMeasure, setRatios, itemNum + 1);
      assert next == Step(setRatios, Walk(pointer, colNum, unitsPerShelf, runsum), item, itemNum + 1 == |shelfMeasure|);
      assert runsum[itemNum] == Last(runsum);
      if next.Fail? {
        WalkFailPersists(shelfMeasure, setRatios, itemNum + 1, |shelfMeasure|);
      }
      if colNum >= |setRatios| {
        return Fail(IndexOutOfRange);
      }
      if pointer < setRatios[colNum].spaceNeeded - item {
        StepWithin(setRatios, Walk(pointer, colNum, unitsPerShelf, runsum), item, itemNum + 1 == |shelfMeasure|);
        pointer := pointer + item;
      } else if pointer > setRatios[colNum].spaceNeeded - item {
        var firstPart := setRatios[colNum].spaceNeeded - pointer;
        bookFirstPart := Books(firstPart, setRatios[colNum].fillRatio);
        if colNum + 1 < |setRatios| {
          StepAcross(setRatios, Walk(pointer, colNum, unitsPerShelf, runsum), item, itemNum + 1 == |shelfMeasure|);
        }
        colNum := colNum + 1;
        var secondPart := item - firstPart;
        if colNum >= |setRatios| {
          return Fail(IndexOutOfRange);
        }
        bookSecondPart := Books(secondPart, setRatios[colNum].fillRatio);
        appendNow := false;
        pointer := secondPart;
      } else {
        if colNum + 1 < |setRatios| {
          StepOnBoundary(setRatios, Walk(pointer, colNum, unitsPerShelf, runsum), item, itemNum + 1 == |shelfMeasure|);
        }
        pointer := 0.0;
        colNum := colNum + 1;
      }
      if appendNow && itemNum != |shelfMeasure| {
        if colNum >= |setRatios| {
          return Fail(IndexOutOfRange);
        }
        var bookMeasure := Books(item, setRatios[colNum].fillRatio);
        runsum := runsum + [runsum[itemNum] + bookMeasure];
        unitsPerShelf := unitsPerShelf + [bookMeasure];
      } else if itemNum != |shelfMeasure| - 1 {
        var bookMeasure := bookFirstPart + bookSecondPart;
        runsum := runsum + [runsum[itemNum] + bookMeasure];
        appendNow := true;
        unitsPerShelf := unitsPerShelf + [bookMeasure];
      }
    }
    return Ok((unitsPerShelf, runsum[1..]));
  }

  /**
   * Every shelf adds one book measure and extends the running total by it, except a last
   * shelf that is split between two collections, which adds nothing.
   */
  lemma StepShape(setRatios: seq<Allocation>, w: Walk, item: real, isLast: bool)
    requires |w.runsum| > 0
    requires Step(setRatios, w, item, isLast).Ok?
    ensures var n := Step(setRatios, w, item, isLast).value;
            (|n.unitsPerShelf| == |w.unitsPerShelf| + 1 &&
             n.unitsPerShelf[..|w.unitsPerShelf|] == w.unitsPerShelf &&
             n.runsum == w.runsum + [Last(w.runsum) + Last(n.unitsPerShelf)]) ||
            (isLast && n.unitsPerShelf == w.unitsPerShelf && n.runsum == w.runsum)
  {
    var needed := setRatios[w.colNum].spaceNeeded;
    if w.pointer < needed - item {
      StepWithin(setRatios, w, item, isLast);
    } else if w.pointer > needed - item {
      StepAcross(setRatios, w, item, isLast);
    } else {
      StepOnBoundary(setRatios, w, item, isLast);
    }
  }

  /**
   * After k shelves the running sum starts at 0 and continues with the running sum of the
   * book measures; there is one book measure per shelf, one fewer when the walk is
   * complete and its last shelf was split.
   */
  lemma {:induction false} WalkShape(shelfMeasure: seq<real>, setRatios: seq<Allocation>, k: nat)
    requires k <= |shelfMeasure|
    requires WalkTo(shelfMeasure, setRatios, k).Ok?
    ensures var w := WalkTo(shelfMeasure, setRatios, k).value;
            |w.runsum| == |w.unitsPerShelf| + 1 && w.runsum[0] == 0.0 &&
            w.runsum[1..] == RunningSum(w.unitsPerShelf) &&
            (|w.unitsPerShelf| == k || (k == |shelfMeasure| && |w.unitsPerShelf| == k - 1))
  {
    if k > 0 {
      WalkShape(shelfMeasure, setRatios, k - 1);
      var w := WalkTo(shelfMeasure, setRatios, k - 1).value;
      var n := WalkTo(shelfMeasure, setRatios, k).value;
      StepShape(setRatios, w, shelfMeasure[k - 1], k == |shelfMeasure|);
      if |n.unitsPerShelf| == |w.unitsPerShelf| + 1 {
        assert n.unitsPerShelf == w.unitsPerShelf + [Last(n.unitsPerShelf)];
        RunsumExtends(w.unitsPerShelf, w.runsum, Last(n.unitsPerShelf));
      }
    }
  }

  /** Appending a book measure and its new total keeps runsum the running sum with a leading 0. */
  lemma RunsumExtends(units: seq<real>, runsum: seq<real>, x: real)
    requires |runsum| == |units| + 1 && runsum[0] == 0.0 && runsum[1..] == RunningSum(units)
    ensures var r := runsum + [Last(runsum) + x];
            r[0] == 0.0 && r[1..] == RunningSum(units + [x])
  {
    RunningSumSnoc(units, x);
    if units == [] {
      assert Last(runsum) == 0.0;
    } else {
      RunningSumSteps(units);
      assert Last(runsum) == RunningSum(units)[|units| - 1];
    }
    SumConcat(units, [x]);
    assert (runsum + [Last(runsum) + x])[1..] == runsum[1..] + [Last(runsum) + x];
  }

  /**
   * runsum_after's two lists: the running sum is the running sum of the book measures,
   * and there is a book measure for every shelf but a split last one.
   */
  lemma FutureRunsumShape(shelfMeasure: seq<real>, setRatios: seq<Allocation>)
    requires FutureRunsumOf(shelfMeasure, setRatios).Ok?
    ensures var (units, runsum) := FutureRunsumOf(shelfMeasure, setRatios).value;
            runsum == RunningSum(units) &&
            (|units| == |shelfMeasure| || |units| == |shelfMeasure| - 1)
  {
    WalkShape(shelfMeasure, setRatios, |shelfMeasure|);
  }

  /**
   * With a single collection the walk never moves on: it succeeds exactly while every
   * prefix of the shelves stays strictly inside the allotment, and the pointer is the
   * measure walked so far.
   */
  lemma {:induction false} SingleCollectionWalk(shelfMeasure: seq<real>, setRatios: seq<Allocation>, k: nat)
    requires |setRatios| == 1 && k <= |shelfMeasure|
    ensures WalkTo(shelfMeasure, setRatios, k).Ok? <==>
              forall j :: 1 <= j <= k ==> Sum(shelfMeasure[..j]) < setRatios[0].spaceNeeded
    ensures WalkTo(shelfMeasure, setRatios, k).Ok? ==>
              WalkTo(shelfMeasure, setRatios, k).value.colNum == 0 &&
              WalkTo(shelfMeasure, setRatios, k).value.pointer == Sum(shelfMeasure[..k])
  {
    if k > 0 {
      SingleCollectionWalk(shelfMeasure, setRatios, k - 1);
      assert shelfMeasure[..k] == shelfMeasure[..k - 1] + [shelfMeasure[k - 1]];
      SumConcat(shelfMeasure[..k - 1], [shelfMeasure[k - 1]]);
    }
  }

  /**
   * A plan with a single collection and no imposed ratio cannot be walked: its allotment is
   * the whole future shelf measure, so the walk reaches the end of the allotment, which makes
   * runsum_after look for a next collection that does not exist.
   */
  lemma SingleCollectionFails(mlist: seq<real>, setRatios: seq<RatioRow>, shelfMeasure: seq<real>)
    requires |setRatios| == 1 && setRatios[0].imposedFillRatio.None? && |shelfMeasure| > 0
    requires Allocate(mlist, setRatios, shelfMeasure).Ok?
    ensures FutureRunsumOf(shelfMeasure, Allocate(mlist, setRatios, shelfMeasure).value) == Fail(IndexOutOfRange)
  {
    var allocs := Allocate(mlist, setRatios, shelfMeasure).value;
    var n := |shelfMeasure|;
    assert HasLeftover(setRatios) by {
      assert setRatios[0].imposedFillRatio.None?;
    }
    AllocationConserves(mlist, setRatios, shelfMeasure);
    assert SpaceColumn(allocs) == [allocs[0].spaceNeeded];
    assert allocs[0].spaceNeeded == Sum(shelfMeasure);
    SingleCollectionWalk(shelfMeasure, allocs, n);
    assert shelfMeasure[..n] == shelfMeasure;
  }

  /** The collection cursor never moves back and moves on by at most one collection per shelf. */
  lemma {:induction false} CollectionAdvancesByOne(shelfMeasure: seq<real>, setRatios: seq<Allocation>, i: nat, j: nat)
    requires i <= j <= |shelfMeasure|
    requires WalkTo(shelfMeasure, setRatios, j).Ok?
    ensures WalkTo(shelfMeasure, setRatios, i).Ok?
    ensures var ci := WalkTo(shelfMeasure, setRatios, i).value.colNum;
            ci <= WalkTo(shelfMeasure, setRatios, j).value.colNum <= ci + (j - i)
    decreases j
  {
    if i < j {
      CollectionAdvancesByOne(shelfMeasure, setRatios, i, j - 1);
    }
  }
}
