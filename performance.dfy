/**
 * The two createIndexPerformanceDto overloads of IndexValService: the change of one index's
 * closing price between a start row and an end row, as an absolute difference ("versus") and
 * as a percentage ("fluctuation rate").
 */
module Performance {
  import opened Results
  import opened Decimals
  import opened Records

  /**
   * IndexPerformanceDto. Its two price components are kept in constructor-argument order:
   * the favourite overload passes (end price, start price), the ranking overload
   * (start price, end price).
   */
  datatype IndexPerformance = IndexPerformance(
    indexInfoId: int,
    classification: string,
    name: string,
    versus: Dec,
    fluctuationRate: Dec,
    firstPrice: Dec,
    secondPrice: Dec)

  /** BigDecimal.valueOf(100) */
  const Hundred: Dec := FromLong(100)

  /**
   * The favourite overload's rate: (end - start).divide(start, 4, HALF_UP).multiply(100),
   * a percentage with four decimals of which the last two are always zero.
   */
  function PercentChange(start: Dec, end: Dec): (r: Result<Dec>)
    ensures r.Err? <==> start.unscaled == 0
    ensures r.Err? ==> r.error == DivisionByZero
    ensures r.Ok? ==> r.value.scale == 4 && r.value.unscaled % 100 == 0
  {
    var q :- Divide(Subtract(end, start), start, 4);
    Ok(Multiply(q, Hundred))
  }

  /** The ranking overload's rate: the same percentage, then setScale(2, HALF_UP). */
  function RankingPercentChange(start: Dec, end: Dec): (r: Result<Dec>)
    ensures r.Err? <==> start.unscaled == 0
    ensures r.Err? ==> r.error == DivisionByZero
    ensures r.Ok? ==> r.value.scale == 2
  {
    var p :- PercentChange(start, end);
    Ok(SetScale(p, 2))
  }

  /**
   * What the rate means: written at the common scale t of the two prices, the rate divided by
   * 100 is (end - start) / start rounded HALF_UP to four decimals.
   */
  lemma PercentChangeMeaning(start: Dec, end: Dec)
    requires start.unscaled != 0
    ensures Rescale(start, Max(start.scale, end.scale)) != 0
    ensures PercentChange(start, end).Ok?
    ensures IsHalfUp(PercentChange(start, end).value.unscaled / 100,
                     (Rescale(end, Max(start.scale, end.scale)) - Rescale(start, Max(start.scale, end.scale)))
                       * Pow10(4),
                     Rescale(start, Max(start.scale, end.scale)))
  {
    var t := Max(start.scale, end.scale);
    SubtractExact(end, start, t);
    DivideAt(Subtract(end, start), start, 4, t);
  }

  /** The ranking path's second rounding to two decimals never changes the value. */
  lemma SecondRoundingExact(start: Dec, end: Dec)
    requires start.unscaled != 0
    ensures RankingPercentChange(start, end).Ok?
    ensures Compare(RankingPercentChange(start, end).value, PercentChange(start, end).value) == 0
  {
    var p := PercentChange(start, end).value;
    var q := p.unscaled / 100;
    var r := SetScale(p, 2);
    assert Pow10(2) == 100;
    assert p.unscaled == 100 * q;
    assert IsHalfUp(q, p.unscaled, 100);
    HalfUpUnique(r.unscaled, q, p.unscaled, 100);
    CompareAt(r, p, 4);
  }

  /** Rounding zero gives zero. */
  lemma RoundZero(d: int)
    requires d != 0
    ensures RoundHalfUp(0, d) == 0
  {
    assert IsHalfUp(0, 0, d);
    HalfUpUnique(RoundHalfUp(0, d), 0, 0, d);
  }

  /** An unchanged price has rate zero on both paths. */
  lemma EqualPricesNoChange(price: Dec)
    requires price.unscaled != 0
    ensures Subtract(price, price) == Dec(0, price.scale)
    ensures PercentChange(price, price) == Ok(Dec(0, 4))
    ensures RankingPercentChange(price, price) == Ok(Dec(0, 2))
  {
    RoundZero(price.unscaled * Pow10(price.scale));
    RoundZero(Pow10(2));
  }

  /**
   * createIndexPerformanceDto(index, startDataMap, endDataMap): an entry only when both a start
   * and an end row were found; its price components are (end, start).
   */
  function FavoritePerformance(index: Index, start: Option<IndexValue>, end: Option<IndexValue>)
    : (r: Result<Option<IndexPerformance>>)
    ensures start.None? || end.None? ==> r == Ok(None)
    ensures start.Some? && end.Some? ==>
              && (r.Err? <==> start.value.closingPrice.unscaled == 0)
              && (r.Ok? ==> r.value.Some?)
    ensures r.Ok? && r.value.Some? ==>
              && start.Some? && end.Some?
              && r.value.value.indexInfoId == index.id
              && r.value.value.classification == index.classification
              && r.value.value.name == index.name
              && r.value.value.firstPrice == end.value.closingPrice
              && r.value.value.secondPrice == start.value.closingPrice
              && r.value.value.versus == Subtract(end.value.closingPrice, start.value.closingPrice)
              && Ok(r.value.value.fluctuationRate)
                   == PercentChange(start.value.closingPrice, end.value.closingPrice)
  {
    if start.Some? && end.Some? then
      var startPrice := start.value.closingPrice;
      var endPrice := end.value.closingPrice;
      var rate :- PercentChange(startPrice, endPrice);
      Ok(Some(IndexPerformance(index.id, index.classification, index.name,
                               Subtract(endPrice, startPrice), rate, endPrice, startPrice)))
    else Ok(None)
  }

  /** createIndexPerformanceDto(index, start, end): price components (start, end). */
  function RankedPerformanceOf(index: Index, start: IndexValue, end: IndexValue): (r: Result<IndexPerformance>)
    ensures r.Err? <==> start.closingPrice.unscaled == 0
    ensures r.Ok? ==>
              && r.value.indexInfoId == index.id
              && r.value.classification == index.classification
              && r.value.name == index.name
              && r.value.firstPrice == start.closingPrice
              && r.value.secondPrice == end.closingPrice
              && r.value.versus == Subtract(end.closingPrice, start.closingPrice)
              && Ok(r.value.fluctuationRate) == RankingPercentChange(start.closingPrice, end.closingPrice)
  {
    var rate :- RankingPercentChange(start.closingPrice, end.closingPrice);
    Ok(IndexPerformance(index.id, index.classification, index.name,
                        Subtract(end.closingPrice, start.closingPrice), rate,
                        start.closingPrice, end.closingPrice))
  }

  /**
   * For the same start and end rows the two overloads agree on identity, versus and the value
   * of the rate, and list the two prices in opposite orders.
   */
  lemma OverloadsAgree(index: Index, start: IndexValue, end: IndexValue)
    requires start.closingPrice.unscaled != 0
    ensures FavoritePerformance(index, Some(start), Some(end)).Ok?
    ensures RankedPerformanceOf(index, start, end).Ok?
    ensures var f := FavoritePerformance(index, Some(start), Some(end)).value.value;
            var g := RankedPerformanceOf(index, start, end).value;
            && f.indexInfoId == g.indexInfoId && f.versus == g.versus
            && Compare(f.fluctuationRate, g.fluctuationRate) == 0
            && f.firstPrice == g.secondPrice && f.secondPrice == g.firstPrice
  {
    SecondRoundingExact(start.closingPrice, end.closingPrice);
    var f := FavoritePerformance(index, Some(start), Some(end)).value.value;
    var g := RankedPerformanceOf(index, start, end).value;
    CompareOrder(g.fluctuationRate, f.fluctuationRate, f.fluctuationRate);
  }
}
