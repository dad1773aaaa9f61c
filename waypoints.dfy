/**
 * waypoint_calc and waypoint_pretty: for the last book of every shelf of one layout, the
 * shelf of the other layout it lands on and how far into that shelf, and the phrases
 * that tell it to the person moving the books.
 */
module WaypointMapper {
  import opened Outcomes
  import opened Text

  /**
   * The inner while loop: from shelf s, move on past every shelf whose running sum is below
   * item, stopping at the last shelf.
   */
  function Advance(list2: seq<real>, s: nat, item: real): (t: nat)
    requires s < |list2|
    ensures s <= t < |list2|
    ensures forall j :: s <= j < t ==> list2[j] < item
    ensures list2[t] >= item || t == |list2| - 1
    decreases |list2| - s
  {
    if list2[s] < item && s < |list2| - 1 then Advance(list2, s + 1, item) else s
  }

  /** shelf_num after the first k items of list1 (the cursor never moves back). */
  function CursorAfter(list1: seq<real>, list2: seq<real>, k: nat): (c: nat)
    requires |list2| > 0 && k <= |list1|
    ensures c < |list2|
  {
    if k == 0 then 0 else Advance(list2, CursorAfter(list1, list2, k - 1), list1[k - 1])
  }

  /** list2[s - 1] with Python's negative indexing: shelf 0 looks at the last entry. */
  function PrevEntry(list2: seq<real>, s: nat): real
    requires s < |list2|
  {
    if s == 0 then list2[|list2| - 1] else list2[s - 1]
  }

  /** units_into for an item that lands on shelf s: the distance past the previous running
    * sum, or the item itself when that distance is negative. */
  function UnitsInto(item: real, list2: seq<real>, s: nat): (u: real)
    requires s < |list2|
    ensures item - PrevEntry(list2, s) >= 0.0 ==> u == item - PrevEntry(list2, s)
    ensures item - PrevEntry(list2, s) < 0.0 ==> u == item
  {
    var t := item - PrevEntry(list2, s);
    if t < 0.0 then item else t
  }

  /**
   * The two columns waypoint_calc builds for the first k items of list1: the 1-based shelf of
   * list2 each lands on, and how far into that shelf.
   */
  function WaypointPrefix(list1: seq<real>, list2: seq<real>, k: nat): (r: (seq<nat>, seq<real>))
    requires |list2| > 0 && k <= |list1|
    ensures |r.0| == k && |r.1| == k
  {
    if k == 0 then ([], [])
    else
      var prev := WaypointPrefix(list1, list2, k - 1);
      var c := CursorAfter(list1, list2, k);
      (prev.0 + [c + 1], prev.1 + [UnitsInto(list1[k - 1], list2, c)])
  }

  /** Entry j of the columns belongs to item j alone. */
  lemma {:induction false} WaypointPrefixAt(list1: seq<real>, list2: seq<real>, k: nat, j: nat)
    requires |list2| > 0 && j < k <= |list1|
    ensures WaypointPrefix(list1, list2, k).0[j] == CursorAfter(list1, list2, j + 1) + 1
    ensures WaypointPrefix(list1, list2, k).1[j] == UnitsInto(list1[j], list2, CursorAfter(list1, list2, j + 1))
  {
    if j < k - 1 {
      WaypointPrefixAt(list1, list2, k - 1, j);
    }
  }

  /** waypoint_calc's result. An empty list2 fails on its first lookup. */
  function Waypoints(list1: seq<real>, list2: seq<real>): (r: Result<(seq<nat>, seq<real>)>)
    ensures r.Fail? <==> |list1| > 0 && |list2| == 0
    ensures r.Fail? ==> r.fault == IndexOutOfRange
    ensures r.Ok? ==> |r.value.0| == |list1| && |r.value.1| == |list1|
  {
    if |list1| == 0 then Ok(([], []))
    else if |list2| == 0 then Fail(IndexOutOfRange)
    else Ok(WaypointPrefix(list1, list2, |list1|))
  }

  /** waypoint_calc's inner while loop. */
  method SkipShelves(list2: seq<real>, start: nat, item: real) returns (shelfNum: nat)
    requires start < |list2|
    ensures shelfNum == Advance(list2, start, item)
  {
    shelfNum := start;
    while list2[shelfNum] < item && shelfNum < |list2| - 1
      invariant shelfNum < |list2|
      invariant Advance(list2, shelfNum, item) == Advance(list2, start, item)
      decreases |list2| - shelfNum
    {
      shelfNum := shelfNum + 1;
    }
  }

  /** waypoint_calc over the running sums of two layouts. */
  method WaypointCalc(list1: seq<real>, list2: seq<real>) returns (r: Result<(seq<nat>, seq<real>)>)
    ensures r == Waypoints(list1, list2)
  {
    var waypoint: seq<nat> := [];
    var unitsInto: seq<real> := [];
    var shelfNum: nat := 0;
    for i := 0 to |list1|
      invariant i > 0 ==> |list2| > 0
      invariant |list2| > 0 ==> shelfNum == CursorAfter(list1, list2, i)
      invariant |list2| > 0 ==> waypoint == WaypointPrefix(list1, list2, i).0
      invariant |list2| > 0 ==> unitsInto == WaypointPrefix(list1, list2, i).1
      invariant |list2| == 0 ==> waypoint == [] && unitsInto == []
    {
      var item := list1[i];
      if |list2| == 0 {
        return Fail(IndexOutOfRange);
      }
      shelfNum := SkipShelves(list2, shelfNum, item);
      waypoint := waypoint + [shelfNum + 1];
      unitsInto := unitsInto + [UnitsInto(item, list2, shelfNum)];
    }
    return Ok((waypoint, unitsInto));
  }

  /** Every waypoint is a shelf of the other layout, numbered from 1. */
  lemma WaypointsInRange(list1: seq<real>, list2: seq<real>)
    requires Waypoints(list1, list2).Ok?
    ensures var (way, units) := Waypoints(list1, list2).value;
            forall k :: 0 <= k < |way| ==> 1 <= way[k] <= |list2|
  {
    forall k | 0 <= k < |list1|
      ensures 1 <= Waypoints(list1, list2).value.0[k] <= |list2|
    {
      WaypointPrefixAt(list1, list2, |list1|, k);
    }
  }

  lemma {:induction false} CursorMonotone(list1: seq<real>, list2: seq<real>, i: nat, j: nat)
    requires |list2| > 0 && i <= j <= |list1|
    ensures CursorAfter(list1, list2, i) <= CursorAfter(list1, list2, j)
    decreases j
  {
    if i < j {
      CursorMonotone(list1, list2, i, j - 1);
    }
  }

  lemma WaypointPairInOrder(list1: seq<real>, list2: seq<real>, i: nat, j: nat)
    requires |list2| > 0 && i <= j < |list1|
    ensures WaypointPrefix(list1, list2, |list1|).0[i] <= WaypointPrefix(list1, list2, |list1|).0[j]
  {
    CursorMonotone(list1, list2, i + 1, j + 1);
    WaypointPrefixAt(list1, list2, |list1|, i);
    WaypointPrefixAt(list1, list2, |list1|, j);
  }

  /** Waypoints never go back: later books land on the same shelf or a later one. */
  lemma WaypointsMonotone(list1: seq<real>, list2: seq<real>)
    requires Waypoints(list1, list2).Ok?
    ensures var way := Waypoints(list1, list2).value.0;
            forall i, j :: 0 <= i <= j < |way| ==> way[i] <= way[j]
  {
    if |list1| > 0 {
      var way := WaypointPrefix(list1, list2, |list1|).0;
      forall i, j | 0 <= i <= j < |way|
        ensures way[i] <= way[j]
      {
        WaypointPairInOrder(list1, list2, i, j);
      }
    }
  }

  /**
   * A reference search independent of the cursor: the index of the first entry of s that
   * is at least x, or |s| when there is none.
   */
  function FirstAtLeast(s: seq<real>, x: real): (r: nat)
    ensures r <= |s|
    ensures forall j :: 0 <= j < r ==> s[j] < x
    ensures r < |s| ==> s[r] >= x
  {
    if s == [] then 0 else if s[0] >= x then 0 else 1 + FirstAtLeast(s[1..], x)
  }

  predicate NonDecreasing(s: seq<real>)
  {
    forall i, j :: 0 <= i <= j < |s| ==> s[i] <= s[j]
  }

  /** Advancing from a shelf that every smaller one is below item finds the first shelf at least item. */
  lemma AdvanceFindsFirst(list2: seq<real>, s: nat, item: real)
    requires s < |list2|
    requires forall j :: 0 <= j < s ==> list2[j] < item
    ensures var f := FirstAtLeast(list2, item);
            Advance(list2, s, item) == if f < |list2| - 1 then f else |list2| - 1
  {
  }

  /**
   * When list1 is in order (a running sum of non-negative measures), the cursor that
   * waypoint_calc carries forward finds the same shelf as a fresh search would: the first
   * shelf whose running sum reaches the item, or the last shelf.
   */
  lemma {:induction false} CursorIsFirstAtLeast(list1: seq<real>, list2: seq<real>, k: nat)
    requires |list2| > 0 && 0 < k <= |list1| && NonDecreasing(list1)
    ensures var f := FirstAtLeast(list2, list1[k - 1]);
            CursorAfter(list1, list2, k) == if f < |list2| - 1 then f else |list2| - 1
  {
    var item := list1[k - 1];
    var c := CursorAfter(list1, list2, k - 1);
    if k > 1 {
      CursorIsFirstAtLeast(list1, list2, k - 1);
      var prev := list1[k - 2];
      assert prev <= item;
      forall j | 0 <= j < c
        ensures list2[j] < item
      {
        assert list2[j] < prev;
      }
    }
    AdvanceFindsFirst(list2, c, item);
  }

  /**
   * With list1 in order, only a book landing on the first shelf can take the substitute
   * value: on any later shelf the units into it are the distance past the previous shelf's
   * running sum, and that distance is positive.
   */
  lemma UnitsPastPreviousShelf(list1: seq<real>, list2: seq<real>, k: nat)
    requires Waypoints(list1, list2).Ok? && NonDecreasing(list1) && k < |list1|
    requires Waypoints(list1, list2).value.0[k] >= 2
    ensures var (way, units) := Waypoints(list1, list2).value;
            way[k] <= |list2| && units[k] == list1[k] - list2[way[k] - 2] && units[k] > 0.0
  {
    WaypointPrefixAt(list1, list2, |list1|, k);
    CursorIsFirstAtLeast(list1, list2, k + 1);
  }

  /**
   * A book landing on the first shelf is measured against the last entry of list2, Python's
   * list2[-1], and keeps its own value when that comes out negative.
   */
  lemma UnitsOnFirstShelf(list1: seq<real>, list2: seq<real>, k: nat)
    requires Waypoints(list1, list2).Ok? && k < |list1|
    requires Waypoints(list1, list2).value.0[k] == 1
    ensures var units := Waypoints(list1, list2).value.1;
            units[k] == if list1[k] - list2[|list2| - 1] < 0.0 then list1[k] else list1[k] - list2[|list2| - 1]
  {
    WaypointPrefixAt(list1, list2, |list1|, k);
  }

  /** The opening of a phrase: where the book goes, or where it comes from. */
  function Opening(firstBool: bool): string
  {
    if firstBool then "The last book from this shelf goes " else "The last book on this shelf comes from "
  }

  const IntoShelf: string := " in/cm into shelf "

  /**
   * waypoint_pretty: one phrase per waypoint. The "{:.1f}" rendering of the units is the
   * parameter format1f; the shelf number is written as str(int). A units list shorter than
   * the waypoints fails on its first missing entry.
   */
  function WaypointPretty(wayList: seq<nat>, unitsInList: seq<real>, firstBool: bool, format1f: real -> string)
    : (r: Result<seq<string>>)
    ensures r.Fail? <==> |unitsInList| < |wayList|
    ensures r.Fail? ==> r.fault == IndexOutOfRange
    ensures r.Ok? ==> |r.value| == |wayList|
    ensures r.Ok? ==> forall i :: 0 <= i < |wayList| ==>
              r.value[i] == Opening(firstBool) + format1f(unitsInList[i]) + IntoShelf + NatToString(wayList[i])
  {
    if |unitsInList| < |wayList| then Fail(IndexOutOfRange)
    else Ok(seq(|wayList|, i requires 0 <= i < |wayList| =>
              Opening(firstBool) + format1f(unitsInList[i]) + IntoShelf + NatToString(wayList[i])))
  }

  /**
   * Every phrase can be read back: it starts with the opening firstBool selects, and its
   * trailing digits are the shelf number, whatever the units were formatted as.
   */
  lemma PrettyReadsBack(wayList: seq<nat>, unitsInList: seq<real>, firstBool: bool, format1f: real -> string, i: nat)
    requires WaypointPretty(wayList, unitsInList, firstBool, format1f).Ok? && i < |wayList|
    ensures var p := WaypointPretty(wayList, unitsInList, firstBool, format1f).value[i];
            |p| > |Opening(firstBool)| &&
            p[..|Opening(firstBool)|] == Opening(firstBool) &&
            ParseDigits(TrailingDigits(p)) == wayList[i]
  {
    PhraseReadsBack(Opening(firstBool), format1f(unitsInList[i]), wayList[i]);
  }

  lemma PhraseReadsBack(opening: string, units: string, shelf: nat)
    ensures var p := opening + units + IntoShelf + NatToString(shelf);
            |p| > |opening| && p[..|opening|] == opening && ParseDigits(TrailingDigits(p)) == shelf
  {
    var head := opening + units + IntoShelf;
    var digits := NatToString(shelf);
    assert IntoShelf[|IntoShelf| - 1] == ' ';
    EndsWith(opening + units, IntoShelf);
    TrailingDigitsAfter(head, digits);
    ParseNatToString(shelf);
    StartsWith(opening, units, IntoShelf, digits);
  }

  lemma StartsWith(a: string, b: string, c: string, d: string)
    ensures (a + b + c + d)[..|a|] == a
  {
  }

  lemma EndsWith(a: string, b: string)
    requires |b| > 0
    ensures (a + b)[|a + b| - 1] == b[|b| - 1]
  {
  }

  /**
   * Three books ending at 10, 20 and 30 against shelves ending at 15 and 30: the first lands
   * on shelf 1 and, since 10 - 30 is negative, keeps 10 as its offset.
   */
  lemma WaypointsExample()
    ensures Waypoints([10.0, 20.0, 30.0], [15.0, 30.0]) == Ok(([1, 2, 2], [10.0, 5.0, 15.0]))
  {
    var list1 := [10.0, 20.0, 30.0];
    var list2 := [15.0, 30.0];
    assert CursorAfter(list1, list2, 1) == 0;
    assert CursorAfter(list1, list2, 2) == 1;
    assert CursorAfter(list1, list2, 3) == 1;
    assert UnitsInto(10.0, list2, 0) == 10.0;
    assert UnitsInto(20.0, list2, 1) == 5.0;
    assert UnitsInto(30.0, list2, 1) == 15.0;
    var w0 := WaypointPrefix(list1, list2, 0);
    assert w0.0 + [1] == [1] && w0.1 + [10.0] == [10.0];
    assert WaypointPrefix(list1, list2, 1) == ([1], [10.0]);
    assert [1] + [2] == [1, 2] && [10.0] + [5.0] == [10.0, 5.0];
    assert WaypointPrefix(list1, list2, 2) == ([1, 2], [10.0, 5.0]);
    assert [1, 2] + [2] == [1, 2, 2] && [10.0, 5.0] + [15.0] == [10.0, 5.0, 15.0];
    assert WaypointPrefix(list1, list2, 3) == ([1, 2, 2], [10.0, 5.0, 15.0]);
  }
}
