/**
 * getIndexChart, getIndexCharts and calculateMovingAverage: an index's closing prices over the
 * lookback window in date order, with 5- and 20-point moving averages.
 */
module Charts {
  import opened Results
  import opened Decimals
  import opened Dates
  import opened Records
  import opened Store

  /** ChartDataPoint */
  datatype ChartPoint = ChartPoint(baseDate: Date, value: Dec)

  /** IndexChartDto */
  datatype IndexChart = IndexChart(
    indexInfoId: int,
    classification: string,
    name: string,
    periodType: string,
    dataPoints: seq<ChartPoint>,
    ma5: seq<ChartPoint>,
    ma20: seq<ChartPoint>)

  function Values(points: seq<ChartPoint>): (r: seq<Dec>)
    ensures |r| == |points|
    ensures forall k :: 0 <= k < |r| ==> r[k] == points[k].value
  {
    seq(|points|, k requires 0 <= k < |points| => points[k].value)
  }

  /** The largest scale among `values`; 0 (the scale of BigDecimal.ZERO) when there are none. */
  function MaxScale(values: seq<Dec>): (s: nat)
    ensures forall k :: 0 <= k < |values| ==> values[k].scale <= s
  {
    if values == [] then 0 else Max(values[0].scale, MaxScale(values[1..]))
  }

  /** The sum of the digits of `values`, all written at scale t. */
  function ScaledSum(values: seq<Dec>, t: nat): int
    requires forall k :: 0 <= k < |values| ==> values[k].scale <= t
  {
    if values == [] then 0 else Rescale(values[0], t) + ScaledSum(values[1..], t)
  }

  /** The exact sum of `values` as repeated BigDecimal.add from ZERO computes it, in any order. */
  function Total(values: seq<Dec>): Dec {
    Dec(ScaledSum(values, MaxScale(values)), MaxScale(values))
  }

  lemma Distribute(a: int, b: int, p: int)
    ensures (a + b) * p == a * p + b * p
  {
  }

  lemma {:induction false} ScaledSumAt(values: seq<Dec>, s: nat, t: nat)
    requires forall k :: 0 <= k < |values| ==> values[k].scale <= s
    requires s <= t
    ensures ScaledSum(values, t) == ScaledSum(values, s) * Pow10(t - s)
  {
    if values != [] {
      ScaledSumAt(values[1..], s, t);
      RescaleCompose(values[0], s, t);
      Distribute(Rescale(values[0], s), ScaledSum(values[1..], s), Pow10(t - s));
    }
  }

  lemma {:induction false} MaxScaleBound(values: seq<Dec>, t: nat)
    requires forall k :: 0 <= k < |values| ==> values[k].scale <= t
    ensures MaxScale(values) <= t
  {
    if values != [] {
      MaxScaleBound(values[1..], t);
    }
  }

  /** The total is exact: at any scale covering the values, its digits are the sum of theirs. */
  lemma TotalExact(values: seq<Dec>, t: nat)
    requires forall k :: 0 <= k < |values| ==> values[k].scale <= t
    ensures MaxScale(values) <= t
    ensures Rescale(Total(values), t) == ScaledSum(values, t)
  {
    MaxScaleBound(values, t);
    ScaledSumAt(values, MaxScale(values), t);
  }

  /** One step of the window loop: adding a value in front of a window adds it to the total. */
  lemma AddToTotal(values: seq<Dec>, x: Dec)
    ensures Add(Total(values), x) == Total([x] + values)
  {
    var m := Max(MaxScale(values), x.scale);
    assert ([x] + values)[1..] == values;
    TotalExact(values, m);
  }

  /** sum.divide(BigDecimal.valueOf(n), 4, HALF_UP) over a window of n values. */
  function Mean(values: seq<Dec>): (r: Dec)
    requires |values| >= 1
    ensures r.scale == 4
  {
    Divide(Total(values), FromLong(|values|), 4).value
  }

  /**
   * What a moving-average value means: written at any scale t covering the window, it is the
   * sum of the window's values over their count, rounded HALF_UP to four decimals.
   */
  lemma MeanMeaning(values: seq<Dec>, t: nat)
    requires |values| >= 1
    requires forall k :: 0 <= k < |values| ==> values[k].scale <= t
    ensures IsHalfUp(Mean(values).unscaled, ScaledSum(values, t) * Pow10(4), |values| * Pow10(t))
  {
    TotalExact(values, t);
    DivideAt(Total(values), FromLong(|values|), 4, t);
  }

  lemma {:induction false} ScaledSumConstant(values: seq<Dec>, c: Dec)
    requires forall k :: 0 <= k < |values| ==> values[k] == c
    ensures ScaledSum(values, c.scale) == |values| * c.unscaled
  {
    if values != [] {
      ScaledSumConstant(values[1..], c);
    }
  }

  /** A whole quotient needs no rounding. */
  lemma HalfUpExact(x: int, e: int)
    requires e > 0
    ensures IsHalfUp(x, x * e, e)
  {
    assert (2 * x - 1) * e == 2 * (x * e) - e;
    assert (2 * x + 1) * e == 2 * (x * e) + e;
  }

  lemma MulRearrange(n: int, u: int, p: int, e: int)
    ensures ((n * u) * p) * e == (u * p) * (n * e)
  {
  }

  /** n copies of u at scale sc, averaged to four decimals, give u's own digits at scale 4. */
  lemma ConstantMeanDigits(q: int, n: int, u: int, sc: nat)
    requires n >= 1 && sc <= 4
    requires IsHalfUp(q, (n * u) * Pow10(4), n * Pow10(sc))
    ensures q == u * Pow10(4 - sc)
  {
    var e := Pow10(sc);
    var p := Pow10(4);
    var exact := u * Pow10(4 - sc);
    MulRearrange(n, u, p, e);
    HalfUpCross(q, (n * u) * p, n * e, u * p, e);
    Pow10Add(4 - sc, sc);
    assert u * p == exact * e;
    HalfUpExact(exact, e);
    HalfUpUnique(q, exact, u * p, e);
  }

  /** The mean of a window of equal values with at most four decimals is that value. */
  lemma MeanOfConstant(values: seq<Dec>, c: Dec)
    requires |values| >= 1 && c.scale <= 4
    requires forall k :: 0 <= k < |values| ==> values[k] == c
    ensures Compare(Mean(values), c) == 0
  {
    ScaledSumConstant(values, c);
    MeanMeaning(values, c.scale);
    ConstantMeanDigits(Mean(values).unscaled, |values|, c.unscaled, c.scale);
    CompareAt(Mean(values), c, 4);
  }

  /**
   * The reference moving average: for every full window of `period` consecutive points, a point
   * on the window's last date carrying the window's mean.
   */
  function MovingAverages(points: seq<ChartPoint>, period: int): (r: seq<ChartPoint>)
    requires period >= 1
    ensures |r| == if |points| < period then 0 else |points| - period + 1
    ensures forall k :: 0 <= k < |r| ==>
              r[k].baseDate == points[k + period - 1].baseDate && r[k].value == Mean(Values(points[k..k + period]))
  {
    var n := if |points| < period then 0 else |points| - period + 1;
    seq(n, k requires 0 <= k < n => ChartPoint(points[k + period - 1].baseDate, Mean(Values(points[k..k + period]))))
  }

  /** Extending a window one point to the left adds that point's value to the window's total. */
  lemma WindowStep(points: seq<ChartPoint>, lo: nat, hi: nat)
    requires lo < hi <= |points|
    ensures Add(Total(Values(points[lo + 1..hi])), points[lo].value) == Total(Values(points[lo..hi]))
  {
    assert Values(points[lo..hi]) == [points[lo].value] + Values(points[lo + 1..hi]);
    AddToTotal(Values(points[lo + 1..hi]), points[lo].value);
  }

  /** The inner loop of calculateMovingAverage: the sum of the values from hi - 1 down to lo. */
  method WindowSum(points: seq<ChartPoint>, lo: nat, hi: nat) returns (sum: Dec)
    requires lo < hi <= |points|
    ensures sum == Total(Values(points[lo..hi]))
  {
    sum := Zero;
    for j := 0 to hi - lo
      invariant sum == Total(Values(points[hi - j..hi]))
    {
      WindowStep(points, hi - j - 1, hi);
      sum := Add(sum, points[hi - j - 1].value);
    }
  }

  /** calculateMovingAverage(dataPoints, period): a window sum per position, then the division. */
  method MovingAverage(points: seq<ChartPoint>, period: int) returns (averages: seq<ChartPoint>)
    requires period >= 1
    ensures averages == MovingAverages(points, period)
  {
    averages := [];
    var i := period - 1;
    while i < |points|
      invariant period - 1 <= i
      invariant |averages| == i - period + 1
      invariant i <= |points| || averages == []
      invariant forall k :: 0 <= k < |averages| ==>
                  averages[k] == ChartPoint(points[k + period - 1].baseDate, Mean(Values(points[k..k + period])))
    {
      var sum := WindowSum(points, i + 1 - period, i + 1);
      var average := Divide(sum, FromLong(period), 4).value;
      averages := averages + [ChartPoint(points[i].baseDate, average)];
      i := i + 1;
    }
  }

  /** dataList.stream().map(data -> new ChartDataPoint(baseDate, closingPrice)) */
  function ChartPoints(rows: seq<IndexValue>): (r: seq<ChartPoint>)
    ensures |r| == |rows|
    ensures forall k :: 0 <= k < |r| ==> r[k] == ChartPoint(rows[k].baseDate, rows[k].closingPrice)
  {
    seq(|rows|, k requires 0 <= k < |rows| => ChartPoint(rows[k].baseDate, rows[k].closingPrice))
  }

  /** The chart of a found index over [start, today]. */
  function ChartOf(index: Index, indexId: int, periodType: string, start: Date, today: Date,
                   store: seq<IndexValue>): IndexChart
  {
    var points := ChartPoints(FindInRangeAscending(store, index.id, start, today));
    IndexChart(indexId, index.classification, index.name, periodType, points,
               MovingAverages(points, 5), MovingAverages(points, 20))
  }

  /** The body both chart operations share once the index is found. */
  method BuildChart(index: Index, indexId: int, periodType: string, start: Date, today: Date,
                    store: seq<IndexValue>) returns (chart: IndexChart)
    ensures chart == ChartOf(index, indexId, periodType, start, today, store)
  {
    var rows := FindInRangeAscending(store, index.id, start, today);
    var points := ChartPoints(rows);
    var ma5 := MovingAverage(points, 5);
    var ma20 := MovingAverage(points, 20);
    chart := IndexChart(indexId, index.classification, index.name, periodType, points, ma5, ma20);
  }

  /** indexRepository.findById(indexId).orElseThrow(INDEX_NOT_FOUND), then the chart over [start, today]. */
  function ChartFrom(indexId: int, periodType: string, start: Date, today: Date, indexes: seq<Index>,
                     store: seq<IndexValue>): Result<IndexChart>
  {
    match FindIndex(indexes, indexId)
    case None => Err(IndexNotFound)
    case Some(index) => Ok(ChartOf(index, indexId, periodType, start, today, store))
  }

  /** The reference result of getIndexChart: the period is checked before the index is looked up. */
  function ChartSpec(periodType: string, indexId: int, today: Date, indexes: seq<Index>,
                     store: seq<IndexValue>): Result<IndexChart>
  {
    var start :- CalculateStartDate(periodType, today);
    ChartFrom(indexId, periodType, start, today, indexes, store)
  }

  /** getIndexChart(periodType, indexId), with LocalDate.now() as `today`. */
  method IndexChartFor(periodType: string, indexId: int, today: Date, indexes: seq<Index>,
                       store: seq<IndexValue>) returns (r: Result<IndexChart>)
    ensures r == ChartSpec(periodType, indexId, today, indexes, store)
  {
    var start :- CalculateStartDate(periodType, today);
    var found := FindIndex(indexes, indexId);
    if found.None? {
      return Err(IndexNotFound);
    }
    var chart := BuildChart(found.value, indexId, periodType, start, today, store);
    r := Ok(chart);
  }

  /**
   * A chart carries the index's identity and the requested period, holds the index's rows in the
   * window in date order, and their 5- and 20-point moving averages, one per full window.
   */
  lemma ChartShape(periodType: string, indexId: int, today: Date, indexes: seq<Index>, store: seq<IndexValue>)
    requires ChartSpec(periodType, indexId, today, indexes, store).Ok?
    ensures CalculateStartDate(periodType, today).Ok? && FindIndex(indexes, indexId).Some?
    ensures var chart := ChartSpec(periodType, indexId, today, indexes, store).value;
            var start := CalculateStartDate(periodType, today).value;
            var points := chart.dataPoints;
            && chart.indexInfoId == indexId
            && chart.classification == FindIndex(indexes, indexId).value.classification
            && chart.name == FindIndex(indexes, indexId).value.name
            && chart.periodType == periodType
            && (forall i, j :: 0 <= i < j < |points| ==> !Before(points[j].baseDate, points[i].baseDate))
            && (forall p :: p in points <==>
                  exists v :: v in store && v.indexId == indexId && InRange(v.baseDate, start, today)
                              && p == ChartPoint(v.baseDate, v.closingPrice))
            && |chart.ma5| == (if |points| < 5 then 0 else |points| - 4)
            && |chart.ma20| == (if |points| < 20 then 0 else |points| - 19)
            && |points| == |Filter(store, OfIndexInRange(indexId, start, today))|
            && chart.ma5 == MovingAverages(points, 5)
            && chart.ma20 == MovingAverages(points, 20)
  {
    var start := CalculateStartDate(periodType, today).value;
    var rows := FindInRangeAscending(store, indexId, start, today);
    var points := ChartPoints(rows);
    forall p | p in points
      ensures exists v :: v in store && v.indexId == indexId && InRange(v.baseDate, start, today)
                          && p == ChartPoint(v.baseDate, v.closingPrice)
    {
      var k :| 0 <= k < |points| && points[k] == p;
      assert rows[k] in rows;
    }
    forall v | v in store && v.indexId == indexId && InRange(v.baseDate, start, today)
      ensures ChartPoint(v.baseDate, v.closingPrice) in points
    {
      var k :| 0 <= k < |rows| && rows[k] == v;
      assert points[k] == ChartPoint(v.baseDate, v.closingPrice);
    }
  }

  /** The charts of getIndexCharts for the ids in order, stopping at the first unknown id. */
  function ChartsOf(ids: seq<int>, periodType: string, start: Date, today: Date, indexes: seq<Index>,
                    store: seq<IndexValue>): Result<seq<IndexChart>>
  {
    if ids == [] then Ok([])
    else
      var init :- ChartsOf(ids[..|ids| - 1], periodType, start, today, indexes, store);
      var chart :- ChartFrom(ids[|ids| - 1], periodType, start, today, indexes, store);
      Ok(init + [chart])
  }

  /** The reference result of getIndexCharts: the period is checked once, before any id. */
  function ChartsSpec(periodType: string, ids: seq<int>, today: Date, indexes: seq<Index>,
                      store: seq<IndexValue>): Result<seq<IndexChart>>
  {
    var start :- CalculateStartDate(periodType, today);
    ChartsOf(ids, periodType, start, today, indexes, store)
  }

  lemma ChartsOfStep(ids: seq<int>, i: nat, periodType: string, start: Date, today: Date,
                     indexes: seq<Index>, store: seq<IndexValue>)
    requires i < |ids|
    ensures ChartsOf(ids[..i + 1], periodType, start, today, indexes, store) ==
              match ChartsOf(ids[..i], periodType, start, today, indexes, store)
              case Err(e) => Err(e)
              case Ok(init) =>
                match ChartFrom(ids[i], periodType, start, today, indexes, store)
                case Err(e) => Err(e)
                case Ok(chart) => Ok(init + [chart])
  {
    assert ids[..i + 1][..i] == ids[..i];
  }

  lemma {:induction false} ChartsOfFailFast(ids: seq<int>, i: nat, periodType: string, start: Date, today: Date,
                                           indexes: seq<Index>, store: seq<IndexValue>)
    requires i <= |ids|
    requires ChartsOf(ids[..i], periodType, start, today, indexes, store).Err?
    ensures ChartsOf(ids, periodType, start, today, indexes, store) == ChartsOf(ids[..i], periodType, start, today, indexes, store)
  {
    if i < |ids| {
      assert ids[..|ids| - 1][..i] == ids[..i];
      ChartsOfFailFast(ids[..|ids| - 1], i, periodType, start, today, indexes, store);
    } else {
      assert ids[..i] == ids;
    }
  }

  /** getIndexCharts(periodType, indexIds), with LocalDate.now() as `today`. */
  method IndexCharts(periodType: string, ids: seq<int>, today: Date, indexes: seq<Index>,
                     store: seq<IndexValue>) returns (r: Result<seq<IndexChart>>)
    ensures r == ChartsSpec(periodType, ids, today, indexes, store)
  {
    var start :- CalculateStartDate(periodType, today);
    var charts: seq<IndexChart> := [];
    var i := 0;
    while i < |ids|
      invariant 0 <= i <= |ids|
      invariant ChartsOf(ids[..i], periodType, start, today, indexes, store) == Ok(charts)
    {
      ChartsOfStep(ids, i, periodType, start, today, indexes, store);
      var found := FindIndex(indexes, ids[i]);
      if found.None? {
        ChartsOfFailFast(ids, i + 1, periodType, start, today, indexes, store);
        return Err(IndexNotFound);
      }
      var chart := BuildChart(found.value, ids[i], periodType, start, today, store);
      charts := charts + [chart];
      i := i + 1;
    }
    assert ids[..|ids|] == ids;
    r := Ok(charts);
  }

  lemma {:induction false} ChartsOfPerId(ids: seq<int>, periodType: string, start: Date, today: Date,
                                         indexes: seq<Index>, store: seq<IndexValue>)
    ensures ChartsOf(ids, periodType, start, today, indexes, store).Ok? <==>
              forall k :: 0 <= k < |ids| ==> FindIndex(indexes, ids[k]).Some?
    ensures ChartsOf(ids, periodType, start, today, indexes, store).Err? ==>
              ChartsOf(ids, periodType, start, today, indexes, store).error == IndexNotFound
    ensures ChartsOf(ids, periodType, start, today, indexes, store).Ok? ==>
              var charts := ChartsOf(ids, periodType, start, today, indexes, store).value;
              |charts| == |ids| &&
              forall k :: 0 <= k < |ids| ==> Ok(charts[k]) == ChartFrom(ids[k], periodType, start, today, indexes, store)
  {
    if ids != [] {
      var init := ids[..|ids| - 1];
      ChartsOfPerId(init, periodType, start, today, indexes, store);
      assert forall k :: 0 <= k < |init| ==> init[k] == ids[k];
      var before := ChartsOf(init, periodType, start, today, indexes, store);
      var last := ChartFrom(ids[|ids| - 1], periodType, start, today, indexes, store);
      if before.Ok? && last.Ok? {
        var charts := ChartsOf(ids, periodType, start, today, indexes, store).value;
        assert charts == before.value + [last.value];
        forall k | 0 <= k < |ids|
          ensures Ok(charts[k]) == ChartFrom(ids[k], periodType, start, today, indexes, store)
        {
          if k < |init| {
            assert charts[k] == before.value[k];
          }
        }
      }
    }
  }

  /**
   * The multi-index variant is the single-index one per id: it succeeds exactly when the period
   * is valid and every id is known, and then holds each id's chart in order.
   */
  lemma ChartsPerId(periodType: string, ids: seq<int>, today: Date, indexes: seq<Index>,
                    store: seq<IndexValue>)
    ensures ChartsSpec(periodType, ids, today, indexes, store).Ok? <==>
              CalculateStartDate(periodType, today).Ok? && forall k :: 0 <= k < |ids| ==> FindIndex(indexes, ids[k]).Some?
    ensures ChartsSpec(periodType, ids, today, indexes, store).Ok? ==>
              var charts := ChartsSpec(periodType, ids, today, indexes, store).value;
              |charts| == |ids| &&
              forall k :: 0 <= k < |ids| ==> Ok(charts[k]) == ChartSpec(periodType, ids[k], today, indexes, store)
  {
    var start := CalculateStartDate(periodType, today);
    if start.Ok? {
      ChartsOfPerId(ids, periodType, start.value, today, indexes, store);
    }
  }
}
