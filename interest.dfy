/**
 * getInterestIndexPerformance: for every favourite index, the change between its earliest and
 * its latest row among the rows fetched for the favourites over the lookback window.
 */
module InterestPerformance {
  import opened Results
  import opened Decimals
  import opened Dates
  import opened Records
  import opened Store
  import opened Performance

  /** favoriteIndexes.stream().map(Index::getId).toList() */
  function IndexIds(indexes: seq<Index>): (r: seq<int>)
    ensures |r| == |indexes|
    ensures forall k :: 0 <= k < |r| ==> r[k] == indexes[k].id
  {
    if indexes == [] then [] else [indexes[0].id] + IndexIds(indexes[1..])
  }

  /** `dates` records, for every index with rows, the base date of its earliest row. */
  ghost predicate TracksEarliest(dates: map<int, Date>, rows: seq<IndexValue>) {
    && (forall id :: id in dates <==> EarliestRow(rows, id).Some?)
    && (forall id :: id in dates ==> dates[id] == EarliestRow(rows, id).value.baseDate)
  }

  /** `dates` records, for every index with rows, the base date of its latest row. */
  ghost predicate TracksLatest(dates: map<int, Date>, rows: seq<IndexValue>) {
    && (forall id :: id in dates <==> LatestRow(rows, id).Some?)
    && (forall id :: id in dates ==> dates[id] == LatestRow(rows, id).value.baseDate)
  }

  /** The update of earliestDateByIndex for one more row keeps it tracking the earliest dates. */
  lemma EarliestStep(dates: map<int, Date>, rows: seq<IndexValue>, v: IndexValue)
    requires TracksEarliest(dates, rows)
    ensures TracksEarliest(if v.indexId !in dates || Before(v.baseDate, dates[v.indexId])
                           then dates[v.indexId := v.baseDate] else dates, rows + [v])
  {
    assert (rows + [v])[..|rows|] == rows;
  }

  /** The update of latestDateByIndex for one more row keeps it tracking the latest dates. */
  lemma LatestStep(dates: map<int, Date>, rows: seq<IndexValue>, v: IndexValue)
    requires TracksLatest(dates, rows)
    ensures TracksLatest(if v.indexId !in dates || Before(dates[v.indexId], v.baseDate)
                         then dates[v.indexId := v.baseDate] else dates, rows + [v])
  {
    assert (rows + [v])[..|rows|] == rows;
  }

  /**
   * The first loop of getInterestIndexPerformance: per index id, the earliest and the latest
   * base date among the fetched rows.
   */
  method EarliestAndLatestDates(rows: seq<IndexValue>) returns (earliest: map<int, Date>, latest: map<int, Date>)
    ensures TracksEarliest(earliest, rows)
    ensures TracksLatest(latest, rows)
  {
    earliest := map[];
    latest := map[];
    var i := 0;
    while i < |rows|
      invariant 0 <= i <= |rows|
      invariant TracksEarliest(earliest, rows[..i])
      invariant TracksLatest(latest, rows[..i])
    {
      var id := rows[i].indexId;
      var date := rows[i].baseDate;
      EarliestStep(earliest, rows[..i], rows[i]);
      LatestStep(latest, rows[..i], rows[i]);
      if id !in earliest || Before(date, earliest[id]) {
        earliest := earliest[id := date];
      }
      if id !in latest || Before(latest[id], date) {
        latest := latest[id := date];
      }
      assert rows[..i + 1] == rows[..i] + [rows[i]];
      i := i + 1;
    }
    assert rows[..|rows|] == rows;
  }

  /**
   * stream().filter(baseDate equals the date recorded for its index).collect(toMap(index id)):
   * the row of each index that lies on that index's recorded date.
   */
  function RowsOnDates(rows: seq<IndexValue>, dates: map<int, Date>): (r: map<int, IndexValue>)
    ensures forall id :: id in r <==>
              id in dates && exists k :: 0 <= k < |rows| && rows[k].indexId == id && rows[k].baseDate == dates[id]
    ensures forall id :: id in r ==> r[id] in rows && r[id].indexId == id && r[id].baseDate == dates[id]
  {
    if rows == [] then map[]
    else
      var rest := RowsOnDates(rows[1..], dates);
      var v := rows[0];
      assert forall k :: 1 <= k < |rows| ==> rows[k] == rows[1..][k - 1];
      if v.indexId in dates && v.baseDate == dates[v.indexId] then rest[v.indexId := v] else rest
  }

  /** Map.get as a nullable result. */
  function Lookup(m: map<int, IndexValue>, id: int): Option<IndexValue> {
    if id in m then Some(m[id]) else None
  }

  function LookupIn(m: map<int, IndexValue>): int -> Option<IndexValue> {
    id => Lookup(m, id)
  }

  function EarliestIn(rows: seq<IndexValue>): int -> Option<IndexValue> {
    id => EarliestRow(rows, id)
  }

  function LatestIn(rows: seq<IndexValue>): int -> Option<IndexValue> {
    id => LatestRow(rows, id)
  }

  /**
   * favoriteIndexes.stream().map(createIndexPerformanceDto).flatMap(Optional::stream), with the
   * start and end row of an index given by `startOf` and `endOf`.
   */
  function FavoriteEntries(favorites: seq<Index>, startOf: int -> Option<IndexValue>,
                           endOf: int -> Option<IndexValue>): Result<seq<IndexPerformance>>
  {
    if favorites == [] then Ok([])
    else
      var e :- FavoritePerformance(favorites[0], startOf(favorites[0].id), endOf(favorites[0].id));
      var rest :- FavoriteEntries(favorites[1..], startOf, endOf);
      Ok((if e.Some? then [e.value] else []) + rest)
  }

  /** The entries depend only on the start and end rows of the favourites. */
  lemma {:induction false} FavoriteEntriesAgree(favorites: seq<Index>,
      startOf: int -> Option<IndexValue>, endOf: int -> Option<IndexValue>,
      startOf': int -> Option<IndexValue>, endOf': int -> Option<IndexValue>)
    requires forall k :: 0 <= k < |favorites| ==>
               startOf(favorites[k].id) == startOf'(favorites[k].id) && endOf(favorites[k].id) == endOf'(favorites[k].id)
    ensures FavoriteEntries(favorites, startOf, endOf) == FavoriteEntries(favorites, startOf', endOf')
  {
    if favorites != [] {
      FavoriteEntriesAgree(favorites[1..], startOf, endOf, startOf', endOf');
    }
  }

  /** With unique keys, the row on an index's earliest date is that index's earliest row. */
  lemma StartDataIsEarliest(rows: seq<IndexValue>, earliest: map<int, Date>)
    requires UniqueKeys(rows)
    requires TracksEarliest(earliest, rows)
    ensures forall id :: LookupIn(RowsOnDates(rows, earliest))(id) == EarliestIn(rows)(id)
  {
    var startData := RowsOnDates(rows, earliest);
    forall id
      ensures LookupIn(startData)(id) == EarliestIn(rows)(id)
    {
      var e := EarliestRow(rows, id);
      if e.Some? {
        var k :| 0 <= k < |rows| && rows[k] == e.value;
        assert id in startData;
        UniqueMembers(rows, startData[id], e.value);
      }
    }
  }

  /** With unique keys, the row on an index's latest date is that index's latest row. */
  lemma EndDataIsLatest(rows: seq<IndexValue>, latest: map<int, Date>)
    requires UniqueKeys(rows)
    requires TracksLatest(latest, rows)
    ensures forall id :: LookupIn(RowsOnDates(rows, latest))(id) == LatestIn(rows)(id)
  {
    var endData := RowsOnDates(rows, latest);
    forall id
      ensures LookupIn(endData)(id) == LatestIn(rows)(id)
    {
      var l := LatestRow(rows, id);
      if l.Some? {
        var k :| 0 <= k < |rows| && rows[k] == l.value;
        assert id in endData;
        UniqueMembers(rows, endData[id], l.value);
      }
    }
  }

  /** `p` is the entry of favourite `index`, measured from its start row to its end row. */
  ghost predicate MeasuresFavorite(p: IndexPerformance, index: Index, startOf: int -> Option<IndexValue>,
                                   endOf: int -> Option<IndexValue>, has: Index -> bool) {
    && has(index)
    && startOf(index.id).Some? && endOf(index.id).Some?
    && p.indexInfoId == index.id
    && p.classification == index.classification
    && p.name == index.name
    && p.secondPrice == startOf(index.id).value.closingPrice
    && p.firstPrice == endOf(index.id).value.closingPrice
    && p.versus == Subtract(p.firstPrice, p.secondPrice)
    && Ok(p.fluctuationRate) == PercentChange(p.secondPrice, p.firstPrice)
  }

  /** `ps` holds the entries of the favourites `w`, one each, in order. */
  ghost predicate MeasuredFavorites(ps: seq<IndexPerformance>, w: seq<Index>, startOf: int -> Option<IndexValue>,
                                    endOf: int -> Option<IndexValue>, has: Index -> bool) {
    |ps| == |w| && forall k :: 0 <= k < |ps| ==> MeasuresFavorite(ps[k], w[k], startOf, endOf, has)
  }

  lemma MeasuredFavoritesCons(p: IndexPerformance, index: Index, ps: seq<IndexPerformance>, w: seq<Index>,
                              startOf: int -> Option<IndexValue>, endOf: int -> Option<IndexValue>, has: Index -> bool)
    requires MeasuresFavorite(p, index, startOf, endOf, has) && MeasuredFavorites(ps, w, startOf, endOf, has)
    ensures MeasuredFavorites([p] + ps, [index] + w, startOf, endOf, has)
  {
    var ps', w' := [p] + ps, [index] + w;
    forall k | 0 <= k < |ps'|
      ensures MeasuresFavorite(ps'[k], w'[k], startOf, endOf, has)
    {
      if k > 0 {
        assert ps'[k] == ps[k - 1] && w'[k] == w[k - 1];
      }
    }
  }

  /**
   * The entries, in favourites order, are exactly the favourites for which `has` holds, each
   * measured from its start row to its end row; `has` must hold exactly for the favourites
   * with both a start and an end row.
   */
  lemma {:induction false} FavoriteEntriesShape(favorites: seq<Index>, startOf: int -> Option<IndexValue>,
                                                endOf: int -> Option<IndexValue>, has: Index -> bool)
    requires forall k :: 0 <= k < |favorites| ==>
               (has(favorites[k]) <==> startOf(favorites[k].id).Some? && endOf(favorites[k].id).Some?)
    requires FavoriteEntries(favorites, startOf, endOf).Ok?
    ensures MeasuredFavorites(FavoriteEntries(favorites, startOf, endOf).value, Filter(favorites, has),
                              startOf, endOf, has)
  {
    if favorites != [] {
      var f := favorites[0];
      var tail := favorites[1..];
      assert forall k :: 0 <= k < |tail| ==> tail[k] == favorites[k + 1];
      FavoriteEntriesShape(tail, startOf, endOf, has);
      var rest := FavoriteEntries(tail, startOf, endOf).value;
      var e := FavoritePerformance(f, startOf(f.id), endOf(f.id)).value;
      assert FavoriteEntries(favorites, startOf, endOf).value == (if e.Some? then [e.value] else []) + rest;
      if has(f) {
        MeasuredFavoritesCons(e.value, f, rest, Filter(tail, has), startOf, endOf, has);
      } else {
        assert [] + rest == rest;
      }
    }
  }

  /** The whole request fails exactly when some favourite with both rows starts at price zero. */
  lemma {:induction false} FavoriteEntriesFail(favorites: seq<Index>, startOf: int -> Option<IndexValue>,
                                               endOf: int -> Option<IndexValue>)
    ensures FavoriteEntries(favorites, startOf, endOf).Err? <==>
              exists k :: 0 <= k < |favorites| && startOf(favorites[k].id).Some? && endOf(favorites[k].id).Some?
                          && startOf(favorites[k].id).value.closingPrice.unscaled == 0
    ensures FavoriteEntries(favorites, startOf, endOf).Err? ==>
              FavoriteEntries(favorites, startOf, endOf).error == DivisionByZero
  {
    if favorites != [] {
      FavoriteEntriesFail(favorites[1..], startOf, endOf);
      assert forall k :: 1 <= k < |favorites| ==> favorites[k] == favorites[1..][k - 1];
      if FavoriteEntries(favorites[1..], startOf, endOf).Err? {
        var k :| 0 <= k < |favorites| - 1 && startOf(favorites[1..][k].id).Some? && endOf(favorites[1..][k].id).Some?
                 && startOf(favorites[1..][k].id).value.closingPrice.unscaled == 0;
        assert favorites[k + 1] == favorites[1..][k];
      }
    }
  }

  /** An index with at least one fetched row. */
  function HasRowIn(rows: seq<IndexValue>): Index -> bool {
    (index: Index) => exists k :: 0 <= k < |rows| && rows[k].indexId == index.id
  }

  /** Fetched rows and their earliest and latest rows agree on which indexes have data. */
  lemma HasRowInBoth(rows: seq<IndexValue>, index: Index)
    ensures HasRowIn(rows)(index) <==> EarliestIn(rows)(index.id).Some? && LatestIn(rows)(index.id).Some?
  {
  }

  /**
   * A favourite with a single fetched row is included, with that row as both start and end:
   * a zero change.
   */
  lemma SingleRowNoChange(index: Index, rows: seq<IndexValue>, k: int)
    requires 0 <= k < |rows| && rows[k].indexId == index.id
    requires forall l :: 0 <= l < |rows| && rows[l].indexId == index.id ==> l == k
    requires rows[k].closingPrice.unscaled != 0
    ensures EarliestRow(rows, index.id) == LatestRow(rows, index.id) == Some(rows[k])
    ensures FavoritePerformance(index, EarliestRow(rows, index.id), LatestRow(rows, index.id))
              == Ok(Some(IndexPerformance(index.id, index.classification, index.name,
                                          Dec(0, rows[k].closingPrice.scale), Dec(0, 4),
                                          rows[k].closingPrice, rows[k].closingPrice)))
  {
    var e := EarliestRow(rows, index.id).value;
    var l := LatestRow(rows, index.id).value;
    var i :| 0 <= i < |rows| && rows[i] == e;
    var j :| 0 <= j < |rows| && rows[j] == l;
    EqualPricesNoChange(rows[k].closingPrice);
  }

  /**
   * The reference result: the favourites of `indexes` in their order, each measured from its
   * earliest to its latest row in the window [today minus the period, today].
   */
  ghost function InterestPerformanceSpec(periodType: string, today: Date, indexes: seq<Index>,
                                         store: seq<IndexValue>): Result<seq<IndexPerformance>>
  {
    var start :- CalculateStartDate(periodType, today);
    var favorites := Favorites(indexes);
    var rows := FindByIndexIdsInRange(store, IndexIds(favorites), start, today);
    FavoriteEntries(favorites, EarliestIn(rows), LatestIn(rows))
  }

  /** getInterestIndexPerformance(periodType), with LocalDate.now() as `today`. */
  method InterestIndexPerformance(periodType: string, today: Date, indexes: seq<Index>, store: seq<IndexValue>)
    returns (r: Result<seq<IndexPerformance>>)
    requires UniqueKeys(store)
    ensures r == InterestPerformanceSpec(periodType, today, indexes, store)
  {
    var favorites := Favorites(indexes);
    var start :- CalculateStartDate(periodType, today);
    var ids := IndexIds(favorites);
    var rows := FindByIndexIdsInRange(store, ids, start, today);
    FindByIndexIdsInRangeUnique(store, ids, start, today);

    var earliest, latest := EarliestAndLatestDates(rows);
    var startData := RowsOnDates(rows, earliest);
    var endData := RowsOnDates(rows, latest);

    StartDataIsEarliest(rows, earliest);
    EndDataIsLatest(rows, latest);
    FavoriteEntriesAgree(favorites, LookupIn(startData), LookupIn(endData), EarliestIn(rows), LatestIn(rows));
    r := FavoriteEntries(favorites, LookupIn(startData), LookupIn(endData));
  }

  /**
   * What getInterestIndexPerformance returns, read off the reference: one entry per favourite
   * with a row in the window, in favourites order, each from the favourite's earliest to its
   * latest row.
   */
  lemma InterestPerformanceEntries(periodType: string, today: Date, indexes: seq<Index>, store: seq<IndexValue>)
    requires InterestPerformanceSpec(periodType, today, indexes, store).Ok?
    ensures CalculateStartDate(periodType, today).Ok?
    ensures var rows := FindByIndexIdsInRange(store, IndexIds(Favorites(indexes)),
                                              CalculateStartDate(periodType, today).value, today);
            var w := Filter(Favorites(indexes), HasRowIn(rows));
            var r := InterestPerformanceSpec(periodType, today, indexes, store).value;
            && |r| == |w|
            && forall k :: 0 <= k < |r| ==>
                 && HasRowIn(rows)(w[k])
                 && r[k].indexInfoId == w[k].id
                 && r[k].classification == w[k].classification
                 && r[k].name == w[k].name
                 && r[k].secondPrice == EarliestRow(rows, w[k].id).value.closingPrice
                 && r[k].firstPrice == LatestRow(rows, w[k].id).value.closingPrice
                 && r[k].versus == Subtract(r[k].firstPrice, r[k].secondPrice)
                 && Ok(r[k].fluctuationRate) == PercentChange(r[k].secondPrice, r[k].firstPrice)
  {
    var start := CalculateStartDate(periodType, today).value;
    var favorites := Favorites(indexes);
    var rows := FindByIndexIdsInRange(store, IndexIds(favorites), start, today);
    forall k | 0 <= k < |favorites|
      ensures HasRowIn(rows)(favorites[k]) <==>
                EarliestIn(rows)(favorites[k].id).Some? && LatestIn(rows)(favorites[k].id).Some?
    {
      HasRowInBoth(rows, favorites[k]);
    }
    FavoriteEntriesShape(favorites, EarliestIn(rows), LatestIn(rows), HasRowIn(rows));
  }
}
