/**
 * The derived columns of bookshift.py: running sums of measures, section and range
 * numbers from blank/non-blank markers, positional counters within groups, and the
 * normalised collection-id column.
 */
module ColumnDeriver {
  import opened Outcomes
  import opened Text

  // ---------------------------------------------------------------------------
  // running_sum
  // ---------------------------------------------------------------------------

  /** The exact sum of a sequence of measures. */
  function Sum(s: seq<real>): real
  {
    if s == [] then 0.0 else Sum(s[..|s| - 1]) + s[|s| - 1]
  }

  lemma {:induction false} SumConcat(a: seq<real>, b: seq<real>)
    ensures Sum(a + b) == Sum(a) + Sum(b)
    decreases |b|
  {
    if b != [] {
      assert (a + b)[..|a + b| - 1] == a + b[..|b| - 1];
      SumConcat(a, b[..|b| - 1]);
    } else {
      assert a + b == a;
    }
  }

  lemma SumFront(s: seq<real>)
    requires s != []
    ensures Sum(s) == s[0] + Sum(s[1..])
  {
    assert s == [s[0]] + s[1..];
    SumConcat([s[0]], s[1..]);
  }

  /** itertools.accumulate carried on from the running total `total`. */
  function Accumulate(total: real, rest: seq<real>): (r: seq<real>)
    ensures |r| == |rest|
    decreases |rest|
  {
    if rest == [] then [] else [total + rest[0]] + Accumulate(total + rest[0], rest[1..])
  }

  /** running_sum: list(accumulate(data)); the first entry is data[0] itself. */
  function RunningSum(data: seq<real>): (r: seq<real>)
    ensures |r| == |data|
  {
    if data == [] then [] else [data[0]] + Accumulate(data[0], data[1..])
  }

  lemma {:induction false} AccumulateAt(total: real, rest: seq<real>, k: nat)
    requires k < |rest|
    ensures Accumulate(total, rest)[k] == total + Sum(rest[..k + 1])
    decreases k
  {
    SumFront(rest[..k + 1]);
    if k > 0 {
      AccumulateAt(total + rest[0], rest[1..], k - 1);
      assert rest[..k + 1][1..] == rest[1..][..k];
    } else {
      assert rest[..1][1..] == [];
    }
  }

  /** Entry i of the running sum is the sum of the measures 0..i. */
  lemma RunningSumAt(data: seq<real>, i: nat)
    requires i < |data|
    ensures RunningSum(data)[i] == Sum(data[..i + 1])
  {
    SumFront(data[..i + 1]);
    if i > 0 {
      AccumulateAt(data[0], data[1..], i - 1);
      assert data[..i + 1][1..] == data[1..][..i];
    } else {
      assert data[..1][1..] == [];
    }
  }

  /**
   * running_sum keeps the input's length, starts with data[0], adds data[i] at step i
   * and ends with the exact total.
   */
  lemma RunningSumSteps(data: seq<real>)
    ensures |RunningSum(data)| == |data|
    ensures |data| > 0 ==> RunningSum(data)[0] == data[0]
    ensures forall i :: 0 < i < |data| ==> RunningSum(data)[i] == RunningSum(data)[i - 1] + data[i]
    ensures |data| > 0 ==> RunningSum(data)[|data| - 1] == Sum(data)
  {
    var r := RunningSum(data);
    forall i | 0 < i < |data|
      ensures r[i] == r[i - 1] + data[i]
    {
      RunningSumAt(data, i);
      RunningSumAt(data, i - 1);
      assert data[..i + 1][..i] == data[..i];
    }
    if |data| > 0 {
      RunningSumAt(data, |data| - 1);
      assert data[..|data|] == data;
    }
  }

  /** Appending a measure appends the new total to the running sum. */
  lemma RunningSumSnoc(data: seq<real>, x: real)
    ensures RunningSum(data + [x]) == RunningSum(data) + [Sum(data + [x])]
  {
    var d := data + [x];
    forall i | 0 <= i < |d|
      ensures RunningSum(d)[i] == (RunningSum(data) + [Sum(d)])[i]
    {
      RunningSumAt(d, i);
      if i < |data| {
        RunningSumAt(data, i);
        assert d[..i + 1] == data[..i + 1];
      } else {
        assert d[..i + 1] == d;
      }
    }
  }

  /** With no negative measure the running sum never decreases. */
  lemma RunningSumMonotone(data: seq<real>)
    requires forall i :: 0 <= i < |data| ==> data[i] >= 0.0
    ensures forall i, j :: 0 <= i <= j < |data| ==> RunningSum(data)[i] <= RunningSum(data)[j]
  {
    RunningSumSteps(data);
    var r := RunningSum(data);
    forall i, j | 0 <= i <= j < |data|
      ensures r[i] <= r[j]
    {
      var k := i;
      while k < j
        invariant i <= k <= j
        invariant r[i] <= r[k]
      {
        k := k + 1;
      }
    }
  }

  // ---------------------------------------------------------------------------
  // section_range_count
  // ---------------------------------------------------------------------------

  /** How many of the markers are non-blank. */
  function NonBlankCount(markers: seq<string>): nat
  {
    if markers == [] then 0
    else NonBlankCount(markers[..|markers| - 1]) + (if IsBlank(markers[|markers| - 1]) then 0 else 1)
  }

  /** Entry i numbers the section (or range) of row i: the non-blank markers in rows 0..i. */
  function SectionRangeNumbers(markers: seq<string>): (r: seq<nat>)
    ensures |r| == |markers|
  {
    seq(|markers|, i requires 0 <= i < |markers| => NonBlankCount(markers[..i + 1]))
  }

  /** section_range_count: a counter that rises by one at every non-blank marker. */
  method SectionRangeCount(data: seq<string>) returns (srCount: seq<nat>)
    ensures srCount == SectionRangeNumbers(data)
  {
    srCount := [];
    var incrementer: nat := 0;
    for i := 0 to |data|
      invariant |srCount| == i
      invariant incrementer == NonBlankCount(data[..i])
      invariant forall k :: 0 <= k < i ==> srCount[k] == NonBlankCount(data[..k + 1])
    {
      assert data[..i + 1][..i] == data[..i];
      StripEmptyIffBlank(data[i]);
      if Strip(data[i]) == "" {
        srCount := srCount + [incrementer];
      } else {
        incrementer := incrementer + 1;
        srCount := srCount + [incrementer];
      }
    }
  }

  /** The numbering starts at 0 or 1 and rises by one exactly at each non-blank marker. */
  lemma SectionRangeNumbersStep(markers: seq<string>)
    ensures |markers| > 0 ==> SectionRangeNumbers(markers)[0] == if IsBlank(markers[0]) then 0 else 1
    ensures forall i :: 0 < i < |markers| ==>
              SectionRangeNumbers(markers)[i] == SectionRangeNumbers(markers)[i - 1] + if IsBlank(markers[i]) then 0 else 1
  {
    forall i | 0 < i < |markers|
      ensures SectionRangeNumbers(markers)[i] == SectionRangeNumbers(markers)[i - 1] + if IsBlank(markers[i]) then 0 else 1
    {
      assert markers[..i + 1][..i] == markers[..i];
    }
    if |markers| > 0 {
      var first := markers[..1];
      assert first[..|first| - 1] == [];
      assert NonBlankCount(first) == NonBlankCount([]) + if IsBlank(markers[0]) then 0 else 1;
    }
  }

  lemma {:induction false} NonBlankCountAllBlank(markers: seq<string>)
    requires forall i :: 0 <= i < |markers| ==> IsBlank(markers[i])
    ensures NonBlankCount(markers) == 0
    decreases |markers|
  {
    if markers != [] {
      NonBlankCountAllBlank(markers[..|markers| - 1]);
    }
  }

  lemma {:induction false} NonBlankCountNoneBlank(markers: seq<string>)
    requires forall i :: 0 <= i < |markers| ==> !IsBlank(markers[i])
    ensures NonBlankCount(markers) == |markers|
    decreases |markers|
  {
    if markers != [] {
      NonBlankCountNoneBlank(markers[..|markers| - 1]);
    }
  }

  /**
   * A marker column that is never set numbers every row 0; one that is set on every row
   * numbers row i as i + 1.
   */
  lemma SectionRangeNumbersExtremes(markers: seq<string>)
    ensures (forall i :: 0 <= i < |markers| ==> IsBlank(markers[i])) ==>
              forall i :: 0 <= i < |markers| ==> SectionRangeNumbers(markers)[i] == 0
    ensures (forall i :: 0 <= i < |markers| ==> !IsBlank(markers[i])) ==>
              forall i :: 0 <= i < |markers| ==> SectionRangeNumbers(markers)[i] == i + 1
  {
    forall i | 0 <= i < |markers|
      ensures (forall k :: 0 <= k < |markers| ==> IsBlank(markers[k])) ==> SectionRangeNumbers(markers)[i] == 0
      ensures (forall k :: 0 <= k < |markers| ==> !IsBlank(markers[k])) ==> SectionRangeNumbers(markers)[i] == i + 1
    {
      if forall k :: 0 <= k < |markers| ==> IsBlank(markers[k]) {
        NonBlankCountAllBlank(markers[..i + 1]);
      }
      if forall k :: 0 <= k < |markers| ==> !IsBlank(markers[k]) {
        NonBlankCountNoneBlank(markers[..i + 1]);
      }
    }
  }

  // ---------------------------------------------------------------------------
  // item_count_per_value
  // ---------------------------------------------------------------------------

  /** Python's `index - 1` as a list index: -1 wraps to the last element. */
  function PrevIndex(i: nat, n: nat): (j: nat)
    requires i < n
    ensures j < n
  {
    if i == 0 then n - 1 else i - 1
  }

  /** The group value changes at position i (position 0 compares with the last value). */
  predicate ResetAt<U(==)>(list2: seq<U>, i: nat)
    requires i < |list2|
  {
    list2[i] != list2[PrevIndex(i, |list2|)]
  }

  /** The driving value changes between positions k - 1 and k. */
  function Change<T(==)>(list1: seq<T>, k: nat): nat
    requires 1 <= k < |list1|
  {
    if list1[k] != list1[k - 1] then 1 else 0
  }

  /**
   * The values emitted by the first k rounds of item_count_per_value's loop, and the
   * counter after them.
   */
  function ItemCountRounds<T(==), U(==)>(list1: seq<T>, list2: seq<U>, k: nat): (r: (seq<nat>, nat))
    requires k <= |list2| && (k == 0 || k < |list1|)
    ensures |r.0| == k
    ensures k > 0 ==> r.0[0] == if ResetAt(list2, 0) then 1 else 0
    ensures forall i {:trigger ResetAt(list2, i)} :: 0 <= i < k ==>
              r.0[i] == if ResetAt(list2, i) then 1 else if i == 0 then 0 else r.0[i - 1] + Change(list1, i)
    ensures r.1 == if k == 0 then 0 else r.0[k - 1] + Change(list1, k)
  {
    if k == 0 then ([], 0)
    else
      var prev := ItemCountRounds(list1, list2, k - 1);
      var shown := if ResetAt(list2, k - 1) then 1 else prev.1;
      var emitted := prev.0 + [shown];
      assert forall i :: 0 <= i < k - 1 ==> emitted[i] == prev.0[i];
      (emitted, shown + Change(list1, k))
  }

  /** What item_count_per_value returns: one value per round, then the final counter. */
  function ItemCounts<T(==), U(==)>(list1: seq<T>, list2: seq<U>): (r: seq<nat>)
    requires |list1| <= 1 || |list2| >= |list1| - 1
    ensures |list1| <= 1 ==> r == [0]
    ensures |list1| >= 2 ==> |r| == |list1|
    ensures |list1| >= 2 ==> r[0] == if ResetAt(list2, 0) then 1 else 0
    ensures forall i {:trigger ResetAt(list2, i)} :: 0 < i < |list1| - 1 ==>
              r[i] == if ResetAt(list2, i) then 1 else r[i - 1] + Change(list1, i)
    ensures |list1| >= 2 ==> r[|list1| - 1] == r[|list1| - 2] + Change(list1, |list1| - 1)
  {
    if |list1| <= 1 then [0]
    else
      var rounds := ItemCountRounds(list1, list2, |list1| - 1);
      rounds.0 + [rounds.1]
  }

  /**
   * item_count_per_value: numbers list1's entries, restarting at 1 when list2's value
   * changes. The last position is never restarted, and position 0 compares list2[0]
   * with list2's last value.
   */
  method ItemCountPerValue<T(==), U(==)>(list1: seq<T>, list2: seq<U>) returns (itemCount: seq<nat>)
    requires |list1| <= 1 || |list2| >= |list1| - 1
    ensures itemCount == ItemCounts(list1, list2)
  {
    var incrementer: nat := 0;
    itemCount := [];
    var rounds := if |list1| == 0 then 0 else |list1| - 1;
    for index := 0 to rounds
      invariant (itemCount, incrementer) == ItemCountRounds(list1, list2, index)
    {
      var item := list1[index + 1];
      if list2[index] != list2[PrevIndex(index, |list2|)] {
        incrementer := 1;
      }
      itemCount := itemCount + [incrementer];
      if item != list1[index] {
        incrementer := incrementer + 1;
      }
    }
    itemCount := itemCount + [incrementer];
  }

  /** How many of the positions lo..hi-1 see list1's value change. */
  function Changes<T(==)>(list1: seq<T>, lo: nat, hi: nat): nat
    requires 1 <= lo <= hi <= |list1|
    decreases hi
  {
    if hi == lo then 0 else Changes(list1, lo, hi - 1) + Change(list1, hi - 1)
  }

  /**
   * The counter is a position within its group: after the last restart at j it is one
   * more than the number of value changes of list1 since j.
   */
  lemma {:induction false} ItemCountsSinceReset<T, U>(list1: seq<T>, list2: seq<U>, j: nat, i: nat)
    requires |list1| >= 2 && |list2| >= |list1| - 1
    requires j <= i < |list1| && j < |list1| - 1
    requires ResetAt(list2, j)
    requires forall k :: j < k <= i && k < |list1| - 1 ==> !ResetAt(list2, k)
    ensures ItemCounts(list1, list2)[i] == 1 + Changes(list1, j + 1, i + 1)
    decreases i
  {
    if i > j {
      ItemCountsSinceReset(list1, list2, j, i - 1);
      if i < |list1| - 1 {
        assert !ResetAt(list2, i);
      }
    } else {
      assert ResetAt(list2, j);
    }
  }

  /** Before the first restart the counter counts list1's value changes from position 1. */
  lemma {:induction false} ItemCountsBeforeReset<T, U>(list1: seq<T>, list2: seq<U>, i: nat)
    requires |list1| >= 2 && |list2| >= |list1| - 1
    requires i < |list1|
    requires forall k :: 0 <= k <= i && k < |list1| - 1 ==> !ResetAt(list2, k)
    ensures ItemCounts(list1, list2)[i] == Changes(list1, 1, i + 1)
    decreases i
  {
    if i > 0 {
      ItemCountsBeforeReset(list1, list2, i - 1);
    }
    if i < |list1| - 1 {
      assert !ResetAt(list2, i);
    }
  }

  // ---------------------------------------------------------------------------
  // set_check
  // ---------------------------------------------------------------------------

  /** max(len(x) for x in data), with 0 for an empty list. */
  function MaxLength(data: seq<string>): (m: nat)
    ensures forall i :: 0 <= i < |data| ==> |data[i]| <= m
  {
    if data == [] then 0
    else
      var m := MaxLength(data[..|data| - 1]);
      if |data[|data| - 1]| > m then |data[|data| - 1]| else m
  }

  lemma {:induction false} MaxLengthAttained(data: seq<string>)
    requires |data| > 0
    ensures exists i :: 0 <= i < |data| && |data[i]| == MaxLength(data)
    decreases |data|
  {
    if |data| > 1 {
      MaxLengthAttained(data[..|data| - 1]);
      var i :| 0 <= i < |data| - 1 && |data[..|data| - 1][i]| == MaxLength(data[..|data| - 1]);
      assert data[..|data| - 1][i] == data[i];
    } else {
      assert |data[0]| == MaxLength(data);
    }
  }

  function Stripped(data: seq<string>): (r: seq<string>)
  {
    seq(|data|, i requires 0 <= i < |data| => Strip(data[i]))
  }

  /** The width every collection id is padded to. */
  function IdWidth(data: seq<string>): nat
  {
    MaxLength(Stripped(data))
  }

  /** Every id zero-padded to width. */
  function PadAll(ids: seq<string>, width: nat): (r: seq<string>)
    ensures |r| == |ids|
    ensures forall i :: 0 <= i < |r| ==> |r[i]| == if |ids[i]| >= width then |ids[i]| else width
  {
    seq(|ids|, i requires 0 <= i < |ids| => ZFill(ids[i], width))
  }

  /**
   * The col_num2 column: every id stripped and zero-padded to the widest id; only when
   * every id is blank does the forward fill take effect, making every entry "1".
   */
  function FilledColumn(data: seq<string>): (r: seq<string>)
    requires |data| > 0
    ensures |r| == |data|
    ensures forall i :: 0 <= i < |r| ==> r[i] != ""
  {
    var width := IdWidth(data);
    if width == 0 then seq(|data|, i => "1")
    else PadAll(Stripped(data), width)
  }

  /** set_check: fills in the blanks of the col_num column; fails (max of an empty list) on no rows. */
  method SetCheck(data: seq<string>) returns (r: Result<seq<string>>)
    ensures r.Fail? <==> |data| == 0
    ensures r.Fail? ==> r.fault == MaxOfEmpty
    ensures r.Ok? ==> r.value == FilledColumn(data)
  {
    var stripped := Stripped(data);
    if |stripped| == 0 {
      return Fail(MaxOfEmpty);
    }
    var maxLen := MaxLength(stripped);
    var padded := PadAll(stripped, maxLen);
    var filled := ForwardFill(padded);
    if maxLen == 0 {
      var ones: seq<string> := seq(|data|, i => "1");
      assert forall k :: 0 <= k < |filled| ==> filled[k] == ones[k];
    }
    return Ok(filled);
  }

  /**
   * The in-place forward fill of set_check: an empty first entry becomes "1" and every
   * other empty entry takes the entry before it.
   */
  method ForwardFill(padded: seq<string>) returns (filled: seq<string>)
    requires |padded| > 0
    ensures |filled| == |padded|
    ensures filled[0] == if padded[0] == "" then "1" else padded[0]
    ensures forall i {:trigger padded[i]} :: 0 < i < |padded| ==>
              filled[i] == if padded[i] == "" then filled[i - 1] else padded[i]
    ensures (forall i :: 0 <= i < |padded| ==> padded[i] != "") ==> filled == padded
    ensures (forall i :: 0 <= i < |padded| ==> padded[i] == "") ==> forall i :: 0 <= i < |padded| ==> filled[i] == "1"
  {
    filled := padded;
    if |filled[0]| == 0 {
      filled := filled[0 := "1"];
    }
    for lineNum := 0 to |filled|
      invariant |filled| == |padded|
      invariant filled[0] == if padded[0] == "" then "1" else padded[0]
      invariant forall i {:trigger padded[i]} :: 0 < i < lineNum ==>
                  filled[i] == if padded[i] == "" then filled[i - 1] else padded[i]
      invariant forall i :: lineNum <= i < |padded| && i > 0 ==> filled[i] == padded[i]
      invariant (forall i :: 0 <= i < |padded| ==> padded[i] == "") ==> forall i :: 0 <= i < lineNum ==> filled[i] == "1"
    {
      if |filled[lineNum]| == 0 {
        filled := filled[lineNum := filled[lineNum - 1]];
      }
      assert lineNum > 0 ==> filled[lineNum] == if padded[lineNum] == "" then filled[lineNum - 1] else padded[lineNum];
    }
  }

  /** The width is zero exactly when every id is blank. */
  lemma IdWidthZeroIffAllBlank(data: seq<string>)
    ensures IdWidth(data) == 0 <==> forall i :: 0 <= i < |data| ==> IsBlank(data[i])
  {
    var s := Stripped(data);
    if IdWidth(data) == 0 {
      forall i | 0 <= i < |data| ensures IsBlank(data[i]) {
        assert |s[i]| <= 0;
        StripEmptyIffBlank(data[i]);
      }
    }
    if |data| > 0 && forall i :: 0 <= i < |data| ==> IsBlank(data[i]) {
      MaxLengthAttained(s);
      var i :| 0 <= i < |s| && |s[i]| == IdWidth(data);
      StripEmptyIffBlank(data[i]);
    }
  }

  /** With every id blank, every filled id is "1". */
  lemma FilledColumnAllBlank(data: seq<string>)
    requires |data| > 0
    requires forall i :: 0 <= i < |data| ==> IsBlank(data[i])
    ensures forall i :: 0 <= i < |data| ==> FilledColumn(data)[i] == "1"
  {
    IdWidthZeroIffAllBlank(data);
  }

  /**
   * With some id present, every filled id has the same width, a blank id becomes a
   * string of '0's (it is not replaced by the id above it), and an unsigned id keeps its
   * digits behind the padding.
   */
  lemma FilledColumnSomePresent(data: seq<string>, i: nat)
    requires i < |data|
    requires exists k :: 0 <= k < |data| && !IsBlank(data[k])
    ensures |FilledColumn(data)[i]| == IdWidth(data)
    ensures IsBlank(data[i]) ==> FilledColumn(data)[i] == Zeros(IdWidth(data))
    ensures Strip(data[i]) != [] && Strip(data[i])[0] != '+' && Strip(data[i])[0] != '-' ==>
              FilledColumn(data)[i] == Zeros(IdWidth(data) - |Strip(data[i])|) + Strip(data[i])
  {
    IdWidthZeroIffAllBlank(data);
    var w := IdWidth(data);
    var v := Strip(data[i]);
    assert |Stripped(data)[i]| <= w;
    assert FilledColumn(data)[i] == PadAll(Stripped(data), w)[i] == ZFill(v, w);
    if IsBlank(data[i]) {
      StripEmptyIffBlank(data[i]);
      ZFillUnsigned(v, w);
    }
    if v != [] && v[0] != '+' && v[0] != '-' {
      ZFillUnsigned(v, w);
    }
  }
}
