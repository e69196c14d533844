/** The ambient-light driver's conversion of a raw ADC reading into a lux
    level (LightSensor::indexToValue): a fixed eight-row table searched
    from the top with a strict "below the threshold" test. */
module LuxTable {

  /** One row of the table: a reading strictly below `adc` that no earlier
      row has claimed is reported as `lux`. */
  datatype AdcToLux = AdcToLux(adc: nat, lux: int)

  /** The driver's table in row order. Every lux level in it is a whole
      number, so `int` stands in for the source's `float`. */
  const Table: seq<AdcToLux> := [
    AdcToLux(150, 10),
    AdcToLux(800, 160),
    AdcToLux(900, 225),
    AdcToLux(1000, 320),
    AdcToLux(1200, 640),
    AdcToLux(1400, 1280),
    AdcToLux(1600, 2600),
    AdcToLux(4095, 10240)
  ]

  /** The number of values of `size_t` on the driver's 32-bit target. */
  const SizeTModulus: nat := 0x1_0000_0000

  /** The implicit conversion of a signed event value to the `size_t`
      parameter of indexToValue: non-negative values are kept, negative
      ones wrap around. */
  function ToSizeT(v: int): (r: nat)
    ensures r < SizeTModulus
    ensures 0 <= v < SizeTModulus ==> r == v
    ensures -(SizeTModulus as int) <= v < 0 ==> r == v + SizeTModulus
  {
    v % SizeTModulus
  }

  /** `x` is one of the lux levels listed in the table. */
  predicate IsLuxLevel(x: int) {
    exists k :: 0 <= k < |Table| && Table[k].lux == x
  }

  /** Both columns of the table strictly increase from one row to the next. */
  lemma TableAscending()
    ensures forall k :: 0 <= k < |Table| - 1 ==> Table[k].adc < Table[k + 1].adc
    ensures forall k :: 0 <= k < |Table| - 1 ==> Table[k].lux < Table[k + 1].lux
  {
    assert Table[0].adc < Table[1].adc && Table[0].lux < Table[1].lux;
    assert Table[1].adc < Table[2].adc && Table[1].lux < Table[2].lux;
    assert Table[2].adc < Table[3].adc && Table[2].lux < Table[3].lux;
    assert Table[3].adc < Table[4].adc && Table[3].lux < Table[4].lux;
    assert Table[4].adc < Table[5].adc && Table[4].lux < Table[5].lux;
    assert Table[5].adc < Table[6].adc && Table[5].lux < Table[6].lux;
    assert Table[6].adc < Table[7].adc && Table[6].lux < Table[7].lux;
  }

  /** What the driver's scan returns once it has passed the rows before `k`:
      the lux of the first row from `k` on whose threshold lies strictly
      above `index`, or the last row's lux when there is none. */
  function ScanFrom(index: nat, k: nat): (r: int)
    requires k <= |Table|
    ensures IsLuxLevel(r)
    ensures k < |Table| ==> Table[k].lux <= r
    ensures r <= Table[|Table| - 1].lux
    decreases |Table| - k
  {
    if k == |Table| then Table[|Table| - 1].lux
    else if index < Table[k].adc then Table[k].lux
    else TableAscending(); ScanFrom(index, k + 1)
  }

  /** The lux level indexToValue reports for a reading. */
  function LuxLevel(index: nat): (r: int)
    ensures IsLuxLevel(r)
    ensures Table[0].lux <= r <= Table[|Table| - 1].lux
    ensures 10 <= r <= 10240
  {
    ScanFrom(index, 0)
  }

  /** indexToValue: the table scan, stopping at the first row whose
      threshold is strictly above the reading. */
  method IndexToValue(index: nat) returns (lux: int)
    ensures lux == LuxLevel(index)
  {
    var i := 0;
    while i < |Table|
      invariant 0 <= i <= |Table|
      invariant ScanFrom(index, i) == LuxLevel(index)
    {
      if index < Table[i].adc {
        return Table[i].lux;
      }
      i := i + 1;
    }
    return Table[|Table| - 1].lux;
  }

  /** A scan started at or before row `k` returns row `k`'s lux when `k` is
      the first row whose threshold lies above the reading. */
  lemma {:induction false} ScanFromFirstRow(index: nat, s: nat, k: nat)
    requires s <= k < |Table|
    requires index < Table[k].adc
    requires forall j :: s <= j < k ==> Table[j].adc <= index
    ensures ScanFrom(index, s) == Table[k].lux
    decreases k - s
  {
    if s < k {
      ScanFromFirstRow(index, s + 1, k);
    }
  }

  /** indexToValue returns the lux of the first row whose threshold is
      strictly greater than the reading. */
  lemma LuxLevelIsFirstRowAbove(index: nat, k: nat)
    requires k < |Table|
    requires index < Table[k].adc
    requires forall j :: 0 <= j < k ==> Table[j].adc <= index
    ensures LuxLevel(index) == Table[k].lux
  {
    ScanFromFirstRow(index, 0, k);
  }

  /** A scan that starts anywhere falls through to the last row's lux when
      the reading is not below the last (largest) threshold. */
  lemma {:induction false} ScanFromBeyondTable(index: nat, s: nat)
    requires s <= |Table|
    requires Table[|Table| - 1].adc <= index
    ensures ScanFrom(index, s) == Table[|Table| - 1].lux
    decreases |Table| - s
  {
    if s < |Table| {
      TableAscending();
      ThresholdsBelowLast(s);
      ScanFromBeyondTable(index, s + 1);
    }
  }

  /** No threshold exceeds the last one. */
  lemma {:induction false} ThresholdsBelowLast(k: nat)
    requires k < |Table|
    ensures Table[k].adc <= Table[|Table| - 1].adc
    decreases |Table| - k
  {
    if k < |Table| - 1 {
      TableAscending();
      ThresholdsBelowLast(k + 1);
    }
  }

  /** Readings at or above 4095 fall through the table to its last row. */
  lemma LuxLevelBeyondTable(index: nat)
    requires 4095 <= index
    ensures LuxLevel(index) == 10240
  {
    ScanFromBeyondTable(index, 0);
  }

  /** The step function the table describes, interval by interval. A
      reading equal to a threshold belongs to the next row: 150 gives 160,
      800 gives 225, and so on. */
  lemma LuxLevelSteps(index: nat)
    ensures LuxLevel(index) ==
      if index < 150 then 10
      else if index < 800 then 160
      else if index < 900 then 225
      else if index < 1000 then 320
      else if index < 1200 then 640
      else if index < 1400 then 1280
      else if index < 1600 then 2600
      else 10240
  {
    if index < 150 {
      LuxLevelIsFirstRowAbove(index, 0);
    } else if index < 800 {
      LuxLevelIsFirstRowAbove(index, 1);
    } else if index < 900 {
      LuxLevelIsFirstRowAbove(index, 2);
    } else if index < 1000 {
      LuxLevelIsFirstRowAbove(index, 3);
    } else if index < 1200 {
      LuxLevelIsFirstRowAbove(index, 4);
    } else if index < 1400 {
      LuxLevelIsFirstRowAbove(index, 5);
    } else if index < 1600 {
      LuxLevelIsFirstRowAbove(index, 6);
    } else if index < 4095 {
      LuxLevelIsFirstRowAbove(index, 7);
    } else {
      LuxLevelBeyondTable(index);
    }
  }

  /** Scans from the same row are monotone in the reading. */
  lemma {:induction false} ScanFromMonotone(i: nat, j: nat, k: nat)
    requires i <= j
    requires k <= |Table|
    ensures ScanFrom(i, k) <= ScanFrom(j, k)
    decreases |Table| - k
  {
    if k < |Table| && Table[k].adc <= i {
      ScanFromMonotone(i, j, k + 1);
    }
  }

  /** A larger reading never reports less light. */
  lemma LuxLevelMonotone(i: nat, j: nat)
    requires i <= j
    ensures LuxLevel(i) <= LuxLevel(j)
  {
    ScanFromMonotone(i, j, 0);
  }

  /** A negative event value wraps to a huge `size_t` and so reports the
      brightest level. */
  lemma NegativeReadingSaturates(v: int)
    requires -0x8000_0000 <= v < 0
    ensures LuxLevel(ToSizeT(v)) == 10240
  {
    LuxLevelBeyondTable(ToSizeT(v));
  }
}
