/**
 * The entities the service reads and writes (Index, IndexVal) and the partial-field update
 * of an index value: each field the request supplies overwrites the stored one, an absent
 * (null) field leaves it as it is.
 */
module Records {
  import opened Results
  import opened Decimals
  import opened Dates

  /** Where a row came from; `create` stamps User. The other constants are not part of this model. */
  datatype SourceType = User | OpenApi

  /** A tracked market index. */
  datatype Index = Index(id: int, classification: string, name: string, favorite: bool)

  /** One observation of an index on a base date, as the repository hands it out. */
  datatype IndexValue = IndexValue(
    id: int,
    indexId: int,
    baseDate: Date,
    sourceType: SourceType,
    marketPrice: Dec,
    closingPrice: Dec,
    highPrice: Dec,
    lowPrice: Dec,
    versus: Dec,
    fluctuationRate: Dec,
    tradingQuantity: int,
    tradingPrice: Dec,
    marketTotalAmount: Dec)

  /** A Java double as it arrives in a request; only converted, never computed with. */
  datatype Double = Double(bits: bv64)

  /** IndexDataUpdateRequest: every field may be null. */
  datatype UpdateRequest = UpdateRequest(
    marketPrice: Option<Dec>,
    closingPrice: Option<Dec>,
    highPrice: Option<Dec>,
    lowPrice: Option<Dec>,
    versus: Option<Dec>,
    fluctuationRate: Option<Dec>,
    tradingQuantity: Option<int>,
    tradingPrice: Option<Double>,
    marketTotalAmount: Option<Double>)

  const NoChanges: UpdateRequest :=
    UpdateRequest(None, None, None, None, None, None, None, None, None)

  function Convert(d: Option<Double>, valueOf: Double -> Dec): Option<Dec> {
    if d.Some? then Some(valueOf(d.value)) else None
  }

  /**
   * The value update(id, request) leaves in the entity; `valueOf` is BigDecimal.valueOf(double),
   * applied to the two double-typed fields.
   */
  function Patch(v: IndexValue, req: UpdateRequest, valueOf: Double -> Dec): (r: IndexValue)
    // the row keeps its identity
    ensures r.id == v.id && r.indexId == v.indexId && r.baseDate == v.baseDate
    ensures r.sourceType == v.sourceType
    // a supplied field is taken over ...
    ensures req.marketPrice.Some? ==> r.marketPrice == req.marketPrice.value
    ensures req.closingPrice.Some? ==> r.closingPrice == req.closingPrice.value
    ensures req.highPrice.Some? ==> r.highPrice == req.highPrice.value
    ensures req.lowPrice.Some? ==> r.lowPrice == req.lowPrice.value
    ensures req.versus.Some? ==> r.versus == req.versus.value
    ensures req.fluctuationRate.Some? ==> r.fluctuationRate == req.fluctuationRate.value
    ensures req.tradingQuantity.Some? ==> r.tradingQuantity == req.tradingQuantity.value
    ensures req.tradingPrice.Some? ==> r.tradingPrice == valueOf(req.tradingPrice.value)
    ensures req.marketTotalAmount.Some? ==> r.marketTotalAmount == valueOf(req.marketTotalAmount.value)
    // ... and an absent one never clears or changes the stored value
    ensures req.marketPrice.None? ==> r.marketPrice == v.marketPrice
    ensures req.closingPrice.None? ==> r.closingPrice == v.closingPrice
    ensures req.highPrice.None? ==> r.highPrice == v.highPrice
    ensures req.lowPrice.None? ==> r.lowPrice == v.lowPrice
    ensures req.versus.None? ==> r.versus == v.versus
    ensures req.fluctuationRate.None? ==> r.fluctuationRate == v.fluctuationRate
    ensures req.tradingQuantity.None? ==> r.tradingQuantity == v.tradingQuantity
    ensures req.tradingPrice.None? ==> r.tradingPrice == v.tradingPrice
    ensures req.marketTotalAmount.None? ==> r.marketTotalAmount == v.marketTotalAmount
  {
    PatchTrading(PatchPrices(v, req), req, valueOf)
  }

  /** The six price and change fields of the patch. */
  function PatchPrices(v: IndexValue, req: UpdateRequest): IndexValue {
    v.(marketPrice := req.marketPrice.GetOr(v.marketPrice),
       closingPrice := req.closingPrice.GetOr(v.closingPrice),
       highPrice := req.highPrice.GetOr(v.highPrice),
       lowPrice := req.lowPrice.GetOr(v.lowPrice),
       versus := req.versus.GetOr(v.versus),
       fluctuationRate := req.fluctuationRate.GetOr(v.fluctuationRate))
  }

  /** The three trading fields of the patch. */
  function PatchTrading(v: IndexValue, req: UpdateRequest, valueOf: Double -> Dec): IndexValue {
    v.(tradingQuantity := req.tradingQuantity.GetOr(v.tradingQuantity),
       tradingPrice := Convert(req.tradingPrice, valueOf).GetOr(v.tradingPrice),
       marketTotalAmount := Convert(req.marketTotalAmount, valueOf).GetOr(v.marketTotalAmount))
  }

  /** A request with every field null changes nothing. */
  lemma PatchNothing(v: IndexValue, valueOf: Double -> Dec)
    ensures Patch(v, NoChanges, valueOf) == v
  {
  }

  /** Applying the same request twice is the same as applying it once. */
  lemma PatchIdempotent(v: IndexValue, req: UpdateRequest, valueOf: Double -> Dec)
    ensures Patch(Patch(v, req, valueOf), req, valueOf) == Patch(v, req, valueOf)
  {
  }

  function Prefer<T>(later: Option<T>, earlier: Option<T>): Option<T> {
    if later.Some? then later else earlier
  }

  /** The single request equivalent to `earlier` followed by `later`: later fields win. */
  function Merge(later: UpdateRequest, earlier: UpdateRequest): UpdateRequest {
    UpdateRequest(
      Prefer(later.marketPrice, earlier.marketPrice),
      Prefer(later.closingPrice, earlier.closingPrice),
      Prefer(later.highPrice, earlier.highPrice),
      Prefer(later.lowPrice, earlier.lowPrice),
      Prefer(later.versus, earlier.versus),
      Prefer(later.fluctuationRate, earlier.fluctuationRate),
      Prefer(later.tradingQuantity, earlier.tradingQuantity),
      Prefer(later.tradingPrice, earlier.tradingPrice),
      Prefer(later.marketTotalAmount, earlier.marketTotalAmount))
  }

  /** Two updates in a row act as one merged update. */
  lemma PatchCompose(v: IndexValue, earlier: UpdateRequest, later: UpdateRequest, valueOf: Double -> Dec)
    ensures Patch(Patch(v, earlier, valueOf), later, valueOf) == Patch(v, Merge(later, earlier), valueOf)
  {
  }

  /** The IndexVal entity, updated in place through its setters. */
  class IndexVal {
    var id: int
    var indexId: int
    var baseDate: Date
    var sourceType: SourceType
    var marketPrice: Dec
    var closingPrice: Dec
    var highPrice: Dec
    var lowPrice: Dec
    var versus: Dec
    var fluctuationRate: Dec
    var tradingQuantity: int
    var tradingPrice: Dec
    var marketTotalAmount: Dec

    constructor (v: IndexValue)
      ensures Value() == v
    {
      id, indexId, baseDate, sourceType := v.id, v.indexId, v.baseDate, v.sourceType;
      marketPrice, closingPrice, highPrice, lowPrice := v.marketPrice, v.closingPrice, v.highPrice, v.lowPrice;
      versus, fluctuationRate, tradingQuantity := v.versus, v.fluctuationRate, v.tradingQuantity;
      tradingPrice, marketTotalAmount := v.tradingPrice, v.marketTotalAmount;
    }

    /** The entity's current state as a value. */
    function Value(): IndexValue
      reads this
    {
      IndexValue(id, indexId, baseDate, sourceType, marketPrice, closingPrice, highPrice, lowPrice,
                 versus, fluctuationRate, tradingQuantity, tradingPrice, marketTotalAmount)
    }

    /** The nine null checks and setter calls of update. */
    method ApplyUpdate(req: UpdateRequest, valueOf: Double -> Dec)
      modifies this
      ensures Value() == Patch(old(Value()), req, valueOf)
    {
      ApplyPriceUpdates(req);
      ApplyTradingUpdates(req, valueOf);
    }

    method ApplyPriceUpdates(req: UpdateRequest)
      modifies this
      ensures Value() == PatchPrices(old(Value()), req)
    {
      if req.marketPrice.Some? {
        marketPrice := req.marketPrice.value;
      }
      if req.closingPrice.Some? {
        closingPrice := req.closingPrice.value;
      }
      if req.highPrice.Some? {
        highPrice := req.highPrice.value;
      }
      if req.lowPrice.Some? {
        lowPrice := req.lowPrice.value;
      }
      if req.versus.Some? {
        versus := req.versus.value;
      }
      if req.fluctuationRate.Some? {
        fluctuationRate := req.fluctuationRate.value;
      }
    }

    method ApplyTradingUpdates(req: UpdateRequest, valueOf: Double -> Dec)
      modifies this
      ensures Value() == PatchTrading(old(Value()), req, valueOf)
    {
      if req.tradingQuantity.Some? {
        tradingQuantity := req.tradingQuantity.value;
      }
      if req.tradingPrice.Some? {
        tradingPrice := valueOf(req.tradingPrice.value);
      }
      if req.marketTotalAmount.Some? {
        marketTotalAmount := valueOf(req.marketTotalAmount.value);
      }
    }
  }

  /**
   * update(id, request): find the entity by id (NotFound otherwise) and patch it in place.
   * `repository` maps each stored id to its entity; the mapper's DTO is the entity's new value.
   */
  method Update(repository: map<int, IndexVal>, id: int, req: UpdateRequest, valueOf: Double -> Dec)
    returns (r: Result<IndexValue>)
    modifies repository.Values
    ensures id !in repository ==> r == Err(NotFound)
    ensures id in repository ==> r == Ok(repository[id].Value())
    ensures id in repository ==> repository[id].Value() == Patch(old(repository[id].Value()), req, valueOf)
    ensures forall e :: e in repository.Values && (id !in repository || e != repository[id]) ==> unchanged(e)
  {
    if id !in repository {
      return Err(NotFound);
    }
    var entity := repository[id];
    entity.ApplyUpdate(req, valueOf);
    r := Ok(entity.Value());
  }
}
