/**
 * getIndexPerformanceRank: every index measured from its first row after the lookback start to
 * its last row before today, stably sorted by descending fluctuation rate, numbered from 1,
 * then narrowed to one index or cut to a limit.
 */
module Ranking {
  import opened Results
  import opened Decimals
  import opened Dates
  import opened Records
  import opened Store
  import opened Performance

  /** RankedIndexPerformanceDto */
  datatype RankedPerformance = RankedPerformance(performance: IndexPerformance, rank: int)

  /** An index has both ranking boundaries: a row after `before` and a row before `today`. */
  function HasBoundaries(store: seq<IndexValue>, before: Date, today: Date): Index -> bool {
    (index: Index) => FindFirstAfter(store, index.id, before).Some? && FindLastBefore(store, index.id, today).Some?
  }

  /**
   * The first loop of getIndexPerformanceRank over `indexes` (findAll order): indexes lacking a
   * boundary row are skipped, the others measured in order.
   */
  function Candidates(indexes: seq<Index>, store: seq<IndexValue>, before: Date, today: Date)
    : Result<seq<IndexPerformance>>
  {
    if indexes == [] then Ok([])
    else
      var init :- Candidates(indexes[..|indexes| - 1], store, before, today);
      var index := indexes[|indexes| - 1];
      var start := FindFirstAfter(store, index.id, before);
      var end := FindLastBefore(store, index.id, today);
      if start.None? || end.None? then Ok(init)
      else
        var p :- RankedPerformanceOf(index, start.value, end.value);
        Ok(init + [p])
  }

  /** Once the loop has failed, it has failed for good. */
  lemma {:induction false} CandidatesFailFast(indexes: seq<Index>, store: seq<IndexValue>, before: Date, today: Date, i: nat)
    requires i <= |indexes|
    requires Candidates(indexes[..i], store, before, today).Err?
    ensures Candidates(indexes, store, before, today) == Candidates(indexes[..i], store, before, today)
  {
    if i < |indexes| {
      assert indexes[..|indexes| - 1][..i] == indexes[..i];
      CandidatesFailFast(indexes[..|indexes| - 1], store, before, today, i);
    } else {
      assert indexes[..i] == indexes;
    }
  }

  /**
   * `p` measures `index` from its first row after `before` to its last row before `today`
   * (createIndexPerformanceDto(index, start, end)).
   */
  ghost predicate Measures(p: IndexPerformance, index: Index, store: seq<IndexValue>, before: Date, today: Date) {
    && HasBoundaries(store, before, today)(index)
    && Ok(p) == RankedPerformanceOf(index, FindFirstAfter(store, index.id, before).value,
                                    FindLastBefore(store, index.id, today).value)
  }

  /** `ps` measures the indexes `w`, entry by entry. */
  ghost predicate MeasuredInOrder(ps: seq<IndexPerformance>, w: seq<Index>, store: seq<IndexValue>, before: Date,
                                  today: Date) {
    |ps| == |w| && forall k :: 0 <= k < |ps| ==> Measures(ps[k], w[k], store, before, today)
  }

  lemma MeasuredSnoc(ps: seq<IndexPerformance>, w: seq<Index>, p: IndexPerformance, index: Index,
                     store: seq<IndexValue>, before: Date, today: Date)
    requires MeasuredInOrder(ps, w, store, before, today) && Measures(p, index, store, before, today)
    ensures MeasuredInOrder(ps + [p], w + [index], store, before, today)
  {
    var ps', w' := ps + [p], w + [index];
    forall k | 0 <= k < |ps'|
      ensures Measures(ps'[k], w'[k], store, before, today)
    {
      if k < |ps| {
        assert ps'[k] == ps[k] && w'[k] == w[k];
      }
    }
  }

  /** One more index: measured and appended when it has both boundaries, skipped otherwise. */
  lemma CandidatesShapeStep(init: seq<Index>, index: Index, store: seq<IndexValue>, before: Date, today: Date)
    requires Candidates(init, store, before, today).Ok?
    requires Candidates(init + [index], store, before, today).Ok?
    requires MeasuredInOrder(Candidates(init, store, before, today).value,
                             Filter(init, HasBoundaries(store, before, today)), store, before, today)
    ensures MeasuredInOrder(Candidates(init + [index], store, before, today).value,
                            Filter(init + [index], HasBoundaries(store, before, today)), store, before, today)
  {
    var has := HasBoundaries(store, before, today);
    assert (init + [index])[..|init|] == init;
    FilterSnoc(init, index, has);
    if has(index) {
      var p := RankedPerformanceOf(index, FindFirstAfter(store, index.id, before).value,
                                   FindLastBefore(store, index.id, today).value).value;
      MeasuredSnoc(Candidates(init, store, before, today).value, Filter(init, has), p, index, store, before, today);
    }
  }

  /** The candidates are the indexes with both boundaries, in order, each measured between them. */
  lemma {:induction false} CandidatesShape(indexes: seq<Index>, store: seq<IndexValue>, before: Date, today: Date)
    requires Candidates(indexes, store, before, today).Ok?
    ensures MeasuredInOrder(Candidates(indexes, store, before, today).value,
                            Filter(indexes, HasBoundaries(store, before, today)), store, before, today)
  {
    if indexes != [] {
      var n := |indexes| - 1;
      assert indexes[..n] + [indexes[n]] == indexes;
      CandidatesShape(indexes[..n], store, before, today);
      CandidatesShapeStep(indexes[..n], indexes[n], store, before, today);
    }
  }

  lemma {:induction false} FilterAppend<T(!new)>(a: seq<T>, b: seq<T>, p: T -> bool)
    ensures Filter(a + b, p) == Filter(a, p) + Filter(b, p)
  {
    if a != [] {
      FilterAppend(a[1..], b, p);
      assert (a + b)[1..] == a[1..] + b;
    } else {
      assert a + b == b;
    }
  }

  /** Sorted by descending fluctuation rate (compareTo, so equal values at other scales tie). */
  ghost predicate Descending(ps: seq<IndexPerformance>) {
    forall i, j :: 0 <= i < j < |ps| ==> Compare(ps[i].fluctuationRate, ps[j].fluctuationRate) >= 0
  }

  /** Inserts `p` before the first element it does not rank below. */
  function InsertByRate(p: IndexPerformance, ps: seq<IndexPerformance>): (r: seq<IndexPerformance>)
    ensures multiset(r) == multiset(ps) + multiset{p}
  {
    if ps == [] || Compare(p.fluctuationRate, ps[0].fluctuationRate) >= 0 then [p] + ps
    else
      assert [ps[0]] + ps[1..] == ps;
      [ps[0]] + InsertByRate(p, ps[1..])
  }

  /** `x` ranks at or above every entry of `ps`. */
  ghost predicate RanksAtLeast(x: IndexPerformance, ps: seq<IndexPerformance>) {
    forall k :: 0 <= k < |ps| ==> Compare(x.fluctuationRate, ps[k].fluctuationRate) >= 0
  }

  lemma ConsDescending(x: IndexPerformance, ps: seq<IndexPerformance>)
    requires Descending(ps) && RanksAtLeast(x, ps)
    ensures Descending([x] + ps)
  {
    var r := [x] + ps;
    forall i, j | 0 <= i < j < |r|
      ensures Compare(r[i].fluctuationRate, r[j].fluctuationRate) >= 0
    {
      assert r[j] == ps[j - 1];
    }
  }

  /** The head of a descending list ranks above its tail, which is descending too. */
  lemma HeadRanksAtLeast(ps: seq<IndexPerformance>)
    requires Descending(ps) && ps != []
    ensures RanksAtLeast(ps[0], ps[1..]) && Descending(ps[1..])
  {
    var tail := ps[1..];
    forall i, j | 0 <= i < j < |tail|
      ensures Compare(tail[i].fluctuationRate, tail[j].fluctuationRate) >= 0
    {
      assert tail[i] == ps[i + 1] && tail[j] == ps[j + 1];
    }
  }

  /** What ranks at or above the head of a descending list ranks at or above all of it. */
  lemma AboveHead(x: IndexPerformance, ps: seq<IndexPerformance>)
    requires Descending(ps) && ps != []
    requires Compare(x.fluctuationRate, ps[0].fluctuationRate) >= 0
    ensures RanksAtLeast(x, ps)
  {
    forall k | 0 <= k < |ps|
      ensures Compare(x.fluctuationRate, ps[k].fluctuationRate) >= 0
    {
      CompareOrder(x.fluctuationRate, ps[0].fluctuationRate, ps[k].fluctuationRate);
    }
  }

  lemma RanksAtLeastInsert(x: IndexPerformance, ps: seq<IndexPerformance>, p: IndexPerformance,
                           rest: seq<IndexPerformance>)
    requires RanksAtLeast(x, ps) && Compare(x.fluctuationRate, p.fluctuationRate) >= 0
    requires multiset(rest) == multiset(ps) + multiset{p}
    ensures RanksAtLeast(x, rest)
  {
    forall k | 0 <= k < |rest|
      ensures Compare(x.fluctuationRate, rest[k].fluctuationRate) >= 0
    {
      assert rest[k] in multiset(ps) + multiset{p};
      if rest[k] != p {
        var j :| 0 <= j < |ps| && ps[j] == rest[k];
      }
    }
  }

  /** Inserting into a list sorted by descending rate keeps it sorted. */
  lemma {:induction false} InsertDescending(p: IndexPerformance, ps: seq<IndexPerformance>)
    requires Descending(ps)
    ensures Descending(InsertByRate(p, ps))
  {
    if ps == [] {
      ConsDescending(p, ps);
    } else if Compare(p.fluctuationRate, ps[0].fluctuationRate) >= 0 {
      AboveHead(p, ps);
      ConsDescending(p, ps);
    } else {
      HeadRanksAtLeast(ps);
      InsertDescending(p, ps[1..]);
      CompareOrder(p.fluctuationRate, ps[0].fluctuationRate, ps[0].fluctuationRate);
      RanksAtLeastInsert(ps[0], ps[1..], p, InsertByRate(p, ps[1..]));
      ConsDescending(ps[0], InsertByRate(p, ps[1..]));
    }
  }

  /**
   * result.sort(comparing(fluctuationRate).reversed()): List.sort is stable, so entries with
   * equal rates keep their order.
   */
  function SortByRate(ps: seq<IndexPerformance>): (r: seq<IndexPerformance>)
    ensures Descending(r)
    ensures multiset(r) == multiset(ps)
  {
    if ps == [] then []
    else
      assert [ps[0]] + ps[1..] == ps;
      var sorted := SortByRate(ps[1..]);
      InsertDescending(ps[0], sorted);
      InsertByRate(ps[0], sorted)
  }

  /** The entries whose rate equals `rate`. */
  function SameRate(rate: Dec): IndexPerformance -> bool {
    (p: IndexPerformance) => Compare(p.fluctuationRate, rate) == 0
  }

  lemma FilterSnoc<T(!new)>(s: seq<T>, x: T, q: T -> bool)
    ensures Filter(s + [x], q) == if q(x) then Filter(s, q) + [x] else Filter(s, q)
  {
    FilterAppend(s, [x], q);
    FilterCons(x, [], q);
    assert [x] + [] == [x];
    assert Filter(s, q) + [] == Filter(s, q);
  }

  lemma FilterCons<T(!new)>(x: T, s: seq<T>, q: T -> bool)
    ensures Filter([x] + s, q) == (if q(x) then [x] else []) + Filter(s, q)
  {
    assert ([x] + s)[1..] == s;
  }

  lemma {:induction false} InsertStable(p: IndexPerformance, ps: seq<IndexPerformance>, rate: Dec)
    ensures Filter(InsertByRate(p, ps), SameRate(rate)) == Filter([p] + ps, SameRate(rate))
  {
    if ps != [] && Compare(p.fluctuationRate, ps[0].fluctuationRate) < 0 {
      var same := SameRate(rate);
      var tail := ps[1..];
      InsertStable(p, tail, rate);
      assert InsertByRate(p, ps) == [ps[0]] + InsertByRate(p, tail);
      assert ps == [ps[0]] + tail;
      FilterCons(ps[0], InsertByRate(p, tail), same);
      FilterCons(p, tail, same);
      FilterCons(ps[0], tail, same);
      FilterCons(p, ps, same);
      var a := if same(ps[0]) then [ps[0]] else [];
      var b := if same(p) then [p] else [];
      // Two entries of the same rate compare equal, so p and ps[0] are not both of that rate.
      CompareOrder(p.fluctuationRate, rate, ps[0].fluctuationRate);
      CompareOrder(ps[0].fluctuationRate, rate, rate);
      var f := Filter(tail, same);
      if a == [] {
        assert a + (b + f) == b + f && a + f == f;
      } else {
        assert b == [];
        assert b + (a + f) == a + f && b + f == f;
      }
    }
  }

  /** The sort is stable: among entries of equal rate, the input order is kept. */
  lemma {:induction false} SortStable(ps: seq<IndexPerformance>, rate: Dec)
    ensures Filter(SortByRate(ps), SameRate(rate)) == Filter(ps, SameRate(rate))
  {
    if ps != [] {
      SortStable(ps[1..], rate);
      InsertStable(ps[0], SortByRate(ps[1..]), rate);
      assert ([ps[0]] + SortByRate(ps[1..]))[1..] == SortByRate(ps[1..]);
    }
  }

  /** The ranks 1..K in list order. */
  ghost predicate NumberedFromOne(ranked: seq<RankedPerformance>, ps: seq<IndexPerformance>) {
    |ranked| == |ps| && forall k :: 0 <= k < |ranked| ==> ranked[k] == RankedPerformance(ps[k], k + 1)
  }

  /** The entries of `ps` ranked 1, 2, ... in list order. */
  function Numbered(ps: seq<IndexPerformance>): (r: seq<RankedPerformance>)
    ensures NumberedFromOne(r, ps)
  {
    seq(|ps|, k requires 0 <= k < |ps| => RankedPerformance(ps[k], k + 1))
  }

  /** The second loop of getIndexPerformanceRank: ++rank for every sorted entry. */
  method AssignRanks(sorted: seq<IndexPerformance>) returns (ranked: seq<RankedPerformance>)
    ensures NumberedFromOne(ranked, sorted)
    ensures ranked == Numbered(sorted)
  {
    ranked := [];
    var rank := 0;
    for k := 0 to |sorted|
      invariant rank == k == |ranked|
      invariant forall i :: 0 <= i < k ==> ranked[i] == RankedPerformance(sorted[i], i + 1)
    {
      rank := rank + 1;
      ranked := ranked + [RankedPerformance(sorted[k], rank)];
    }
  }

  /** The entries of one index. */
  function OfIndex(id: int): RankedPerformance -> bool {
    (d: RankedPerformance) => d.performance.indexInfoId == id
  }

  /**
   * The final step: with an index id, that index's entries; otherwise the whole list when it is
   * shorter than `limit`, else subList(0, limit), which rejects a negative limit.
   */
  function SelectRanked(ranked: seq<RankedPerformance>, indexInfoId: Option<int>, limit: int)
    : (r: Result<seq<RankedPerformance>>)
    ensures indexInfoId.Some? ==> r == Ok(Filter(ranked, OfIndex(indexInfoId.value)))
    ensures indexInfoId.None? ==> (r.Err? <==> limit < 0)
    ensures indexInfoId.None? && r.Err? ==> r.error == NegativeLimit
    ensures indexInfoId.None? && r.Ok? ==>
              |r.value| == (if limit < |ranked| then limit else |ranked|) && r.value <= ranked
  {
    if indexInfoId.Some? then Ok(Filter(ranked, OfIndex(indexInfoId.value)))
    else if |ranked| < limit then Ok(ranked)
    else if limit < 0 then Err(NegativeLimit)
    else Ok(ranked[..limit])
  }

  /** The reference result of getIndexPerformanceRank, with LocalDate.now() as `today`. */
  ghost function PerformanceRankSpec(periodType: string, indexInfoId: Option<int>, limit: int, today: Date,
                                     indexes: seq<Index>, store: seq<IndexValue>)
    : Result<seq<RankedPerformance>>
  {
    var before :- CalculateStartDate(periodType, today);
    var candidates :- Candidates(indexes, store, before, today);
    var sorted := SortByRate(candidates);
    SelectRanked(Numbered(sorted), indexInfoId, limit)
  }

  /** Candidates over one more index. */
  lemma CandidatesStep(indexes: seq<Index>, i: nat, store: seq<IndexValue>, before: Date, today: Date)
    requires i < |indexes|
    ensures Candidates(indexes[..i + 1], store, before, today) ==
              match Candidates(indexes[..i], store, before, today)
              case Err(e) => Err(e)
              case Ok(init) =>
                var start := FindFirstAfter(store, indexes[i].id, before);
                var end := FindLastBefore(store, indexes[i].id, today);
                if start.None? || end.None? then Ok(init)
                else match RankedPerformanceOf(indexes[i], start.value, end.value)
                     case Err(e) => Err(e)
                     case Ok(p) => Ok(init + [p])
  {
    assert indexes[..i + 1][..i] == indexes[..i];
  }

  /** The first loop of getIndexPerformanceRank. */
  method MeasureIndexes(indexes: seq<Index>, store: seq<IndexValue>, before: Date, today: Date)
    returns (r: Result<seq<IndexPerformance>>)
    ensures r == Candidates(indexes, store, before, today)
  {
    var result: seq<IndexPerformance> := [];
    var i := 0;
    while i < |indexes|
      invariant 0 <= i <= |indexes|
      invariant Candidates(indexes[..i], store, before, today) == Ok(result)
    {
      var index := indexes[i];
      var start := FindFirstAfter(store, index.id, before);
      var end := FindLastBefore(store, index.id, today);
      CandidatesStep(indexes, i, store, before, today);
      if start.Some? && end.Some? {
        var p := RankedPerformanceOf(index, start.value, end.value);
        if p.Err? {
          CandidatesFailFast(indexes, store, before, today, i + 1);
          return Err(p.error);
        }
        result := result + [p.value];
      }
      i := i + 1;
    }
    assert indexes[..|indexes|] == indexes;
    r := Ok(result);
  }

  /** getIndexPerformanceRank(periodType, indexInfoId, limit) */
  method IndexPerformanceRank(periodType: string, indexInfoId: Option<int>, limit: int, today: Date,
                              indexes: seq<Index>, store: seq<IndexValue>)
    returns (r: Result<seq<RankedPerformance>>)
    ensures r == PerformanceRankSpec(periodType, indexInfoId, limit, today, indexes, store)
  {
    var before :- CalculateStartDate(periodType, today);
    var result :- MeasureIndexes(indexes, store, before, today);
    var sorted := SortByRate(result);
    var ranked := AssignRanks(sorted);
    r := SelectRanked(ranked, indexInfoId, limit);
  }

  /**
   * DAILY ranking measures backwards: the lookback start is yesterday, so an index's start row,
   * the first after yesterday, is dated today or later, while its end row is dated before today.
   * An index has a start row exactly when it has a row dated today or later.
   */
  lemma DailyBackwards(store: seq<IndexValue>, id: int, today: Date)
    ensures CalculateStartDate("DAILY", today).Ok?
    ensures var start := FindFirstAfter(store, id, CalculateStartDate("DAILY", today).value);
            var end := FindLastBefore(store, id, today);
            && (start.Some? ==> !Before(start.value.baseDate, today))
            && (start.Some? && end.Some? ==> Before(end.value.baseDate, start.value.baseDate))
            && (start.Some? <==> exists v :: v in store && v.indexId == id && !Before(v.baseDate, today))
  {
    var before := CalculateStartDate("DAILY", today).value;
    LookbackBeforeToday(Daily, today);
    var start := FindFirstAfter(store, id, before);
    var end := FindLastBefore(store, id, today);
    if start.Some? {
      BeforeIsFewerDays(before, start.value.baseDate);
      BeforeIsFewerDays(start.value.baseDate, today);
      if end.Some? {
        BeforeIsFewerDays(end.value.baseDate, today);
        BeforeIsFewerDays(end.value.baseDate, start.value.baseDate);
      }
    }
    forall v | v in store && v.indexId == id && !Before(v.baseDate, today)
      ensures Before(before, v.baseDate)
    {
      BeforeIsFewerDays(v.baseDate, today);
      BeforeIsFewerDays(before, v.baseDate);
    }
  }

  /** Indexes with both boundaries whose first row after `before` closed at price zero. */
  function StartsAtZero(store: seq<IndexValue>, before: Date, today: Date): Index -> bool {
    (index: Index) =>
      var start := FindFirstAfter(store, index.id, before);
      start.Some? && FindLastBefore(store, index.id, today).Some? && start.value.closingPrice.unscaled == 0
  }

  /** Some entry of a non-empty list satisfies `p` exactly when one before the last does, or the last does. */
  lemma ExistsSnoc<T>(s: seq<T>, init: seq<T>, p: T -> bool)
    requires s != [] && init == s[..|s| - 1]
    ensures (exists k :: 0 <= k < |s| && p(s[k])) <==> (exists k :: 0 <= k < |init| && p(init[k])) || p(s[|s| - 1])
  {
    if exists k :: 0 <= k < |init| && p(init[k]) {
      var k :| 0 <= k < |init| && p(init[k]);
      assert s[k] == init[k];
    }
  }

  /** One more index makes the loop fail exactly when it starts at price zero. */
  lemma CandidatesFailStep(indexes: seq<Index>, i: nat, store: seq<IndexValue>, before: Date, today: Date)
    requires i < |indexes|
    ensures Candidates(indexes[..i + 1], store, before, today).Err? <==>
              Candidates(indexes[..i], store, before, today).Err? || StartsAtZero(store, before, today)(indexes[i])
  {
    CandidatesStep(indexes, i, store, before, today);
    var start := FindFirstAfter(store, indexes[i].id, before);
    var end := FindLastBefore(store, indexes[i].id, today);
    assert StartsAtZero(store, before, today)(indexes[i]) <==>
             start.Some? && end.Some? && start.value.closingPrice.unscaled == 0;
    if start.Some? && end.Some? {
      assert RankedPerformanceOf(indexes[i], start.value, end.value).Err? <==> start.value.closingPrice.unscaled == 0;
    }
  }

  /** Measuring fails exactly when some index with both boundaries starts at price zero. */
  lemma {:induction false} CandidatesFail(indexes: seq<Index>, store: seq<IndexValue>, before: Date, today: Date)
    ensures Candidates(indexes, store, before, today).Err? <==>
              exists k :: 0 <= k < |indexes| && StartsAtZero(store, before, today)(indexes[k])
  {
    if indexes != [] {
      var n := |indexes| - 1;
      CandidatesFail(indexes[..n], store, before, today);
      CandidatesFailStep(indexes, n, store, before, today);
      assert indexes[..n + 1] == indexes;
      ExistsSnoc(indexes, indexes[..n], StartsAtZero(store, before, today));
    }
  }

  /**
   * Without an index id: the top min(limit, K) of the K measured indexes, ranked 1, 2, ... in
   * order of non-increasing rate. The result is the head of the full ranking, and no measured
   * index left out rates above any index selected.
   */
  lemma RankingTop(periodType: string, limit: int, today: Date, indexes: seq<Index>, store: seq<IndexValue>)
    requires PerformanceRankSpec(periodType, None, limit, today, indexes, store).Ok?
    ensures CalculateStartDate(periodType, today).Ok?
    ensures Candidates(indexes, store, CalculateStartDate(periodType, today).value, today).Ok?
    ensures var candidates := Candidates(indexes, store, CalculateStartDate(periodType, today).value, today).value;
            var r := PerformanceRankSpec(periodType, None, limit, today, indexes, store).value;
            && 0 <= limit
            && |r| == (if limit < |candidates| then limit else |candidates|)
            && (forall k :: 0 <= k < |r| ==> r[k].rank == k + 1 && r[k].performance in candidates)
            && (forall i, j :: 0 <= i < j < |r| ==>
                  Compare(r[i].performance.fluctuationRate, r[j].performance.fluctuationRate) >= 0)
            && r <= Numbered(SortByRate(candidates))
            && (forall i, k :: 0 <= i < |r| <= k < |SortByRate(candidates)| ==>
                  Compare(r[i].performance.fluctuationRate, SortByRate(candidates)[k].fluctuationRate) >= 0)
  {
    var candidates := Candidates(indexes, store, CalculateStartDate(periodType, today).value, today).value;
    var sorted := SortByRate(candidates);
    var ranked := Numbered(sorted);
    var r := PerformanceRankSpec(periodType, None, limit, today, indexes, store).value;
    assert r == SelectRanked(ranked, None, limit).value;
    assert r <= ranked;
    forall k | 0 <= k < |r|
      ensures r[k].rank == k + 1 && r[k].performance in candidates
    {
      assert r[k] == ranked[k];
      assert sorted[k] in multiset(sorted);
    }
    forall i, j | 0 <= i < j < |r|
      ensures Compare(r[i].performance.fluctuationRate, r[j].performance.fluctuationRate) >= 0
    {
      assert r[i] == ranked[i] && r[j] == ranked[j];
    }
    forall i, k | 0 <= i < |r| <= k < |sorted|
      ensures Compare(r[i].performance.fluctuationRate, sorted[k].fluctuationRate) >= 0
    {
      assert r[i] == ranked[i];
    }
  }

  /**
   * With an index id: the limit plays no part, and the result is exactly that index's entries of
   * the full ranking, each keeping its rank there.
   */
  lemma RankingOfIndex(periodType: string, id: int, limit: int, today: Date, indexes: seq<Index>, store: seq<IndexValue>)
    requires PerformanceRankSpec(periodType, Some(id), limit, today, indexes, store).Ok?
    ensures CalculateStartDate(periodType, today).Ok?
    ensures Candidates(indexes, store, CalculateStartDate(periodType, today).value, today).Ok?
    ensures forall limit' :: PerformanceRankSpec(periodType, Some(id), limit', today, indexes, store)
                             == PerformanceRankSpec(periodType, Some(id), limit, today, indexes, store)
    ensures var sorted := SortByRate(Candidates(indexes, store, CalculateStartDate(periodType, today).value, today).value);
            var r := PerformanceRankSpec(periodType, Some(id), limit, today, indexes, store).value;
            && (forall e :: e in r ==>
                  e.performance.indexInfoId == id && 1 <= e.rank <= |sorted| && sorted[e.rank - 1] == e.performance)
            && (forall k :: 0 <= k < |sorted| && sorted[k].indexInfoId == id ==> RankedPerformance(sorted[k], k + 1) in r)
  {
    var sorted := SortByRate(Candidates(indexes, store, CalculateStartDate(periodType, today).value, today).value);
    var ranked := Numbered(sorted);
    forall e | e in ranked
      ensures 1 <= e.rank <= |sorted| && sorted[e.rank - 1] == e.performance
    {
      var k :| 0 <= k < |ranked| && ranked[k] == e;
    }
    forall k | 0 <= k < |sorted| && sorted[k].indexInfoId == id
      ensures RankedPerformance(sorted[k], k + 1) in Filter(ranked, OfIndex(id))
    {
      assert ranked[k] == RankedPerformance(sorted[k], k + 1);
    }
  }
}
