/**
 * The repository queries whose meaning their Spring Data method names fix, over the stored
 * rows given as a sequence: `Between` is inclusive at both ends, `GreaterThan` and `LessThan`
 * are strict, `findFirst...OrderByBaseDateAsc` is the earliest match. Rows come back in store
 * order unless the name orders them.
 */
module Store {
  import opened Results
  import opened Dates
  import opened Records

  /** baseDate between lo and hi, both included. */
  predicate InRange(d: Date, lo: Date, hi: Date) {
    !Before(d, lo) && !Before(hi, d)
  }

  /** At most one row per (index, base date): the table's unique key. */
  ghost predicate UniqueKeys(rows: seq<IndexValue>) {
    forall i, j :: 0 <= i < j < |rows| ==>
      rows[i].indexId != rows[j].indexId || rows[i].baseDate != rows[j].baseDate
  }

  lemma UniqueMembers(rows: seq<IndexValue>, a: IndexValue, b: IndexValue)
    requires UniqueKeys(rows)
    requires a in rows && b in rows && a.indexId == b.indexId && a.baseDate == b.baseDate
    ensures a == b
  {
    var i :| 0 <= i < |rows| && rows[i] == a;
    var j :| 0 <= j < |rows| && rows[j] == b;
    assert i == j by {
      if i < j { assert false; } else if j < i { assert false; }
    }
  }

  function Filter<T(!new)>(s: seq<T>, p: T -> bool): (r: seq<T>)
    ensures forall x :: x in r <==> x in s && p(x)
  {
    if s == [] then [] else (if p(s[0]) then [s[0]] else []) + Filter(s[1..], p)
  }

  lemma {:induction false} FilterUnique(rows: seq<IndexValue>, p: IndexValue -> bool)
    requires UniqueKeys(rows)
    ensures UniqueKeys(Filter(rows, p))
  {
    if rows != [] {
      FilterUnique(rows[1..], p);
      var rest := Filter(rows[1..], p);
      if p(rows[0]) {
        var r := [rows[0]] + rest;
        forall i, j | 0 <= i < j < |r|
          ensures r[i].indexId != r[j].indexId || r[i].baseDate != r[j].baseDate
        {
          if i == 0 {
            assert r[j] in rows[1..];
            var k :| 0 <= k < |rows| - 1 && rows[1..][k] == r[j];
            assert rows[k + 1] == r[j];
          }
        }
      }
    }
  }

  /** findByFavorite(true) */
  function Favorites(indexes: seq<Index>): seq<Index> {
    Filter(indexes, (x: Index) => x.favorite)
  }

  /** findById over the indexes. */
  function FindIndex(indexes: seq<Index>, id: int): (r: Option<Index>)
    ensures r.Some? ==> r.value in indexes && r.value.id == id
    ensures r.None? <==> forall k :: 0 <= k < |indexes| ==> indexes[k].id != id
  {
    if indexes == [] then None
    else if indexes[0].id == id then Some(indexes[0])
    else FindIndex(indexes[1..], id)
  }

  /** The condition of findByIndex_IdInAndBaseDateBetween(ids, lo, hi). */
  function InIdsAndRange(ids: seq<int>, lo: Date, hi: Date): IndexValue -> bool {
    (v: IndexValue) => v.indexId in ids && InRange(v.baseDate, lo, hi)
  }

  /** findByIndex_IdInAndBaseDateBetween(ids, lo, hi) */
  function FindByIndexIdsInRange(store: seq<IndexValue>, ids: seq<int>, lo: Date, hi: Date): (r: seq<IndexValue>)
    ensures forall v :: v in r <==> v in store && v.indexId in ids && InRange(v.baseDate, lo, hi)
  {
    Filter(store, InIdsAndRange(ids, lo, hi))
  }

  /** The rows fetched from a store with unique keys have unique keys. */
  lemma FindByIndexIdsInRangeUnique(store: seq<IndexValue>, ids: seq<int>, lo: Date, hi: Date)
    requires UniqueKeys(store)
    ensures UniqueKeys(FindByIndexIdsInRange(store, ids, lo, hi))
  {
    FilterUnique(store, InIdsAndRange(ids, lo, hi));
  }

  /**
   * The earliest row of index `id` among `rows`; on equal dates the one met first. This is
   * also the loop of getInterestIndexPerformance, which replaces its candidate only when a
   * later row's date is strictly before it.
   */
  function EarliestRow(rows: seq<IndexValue>, id: int): (r: Option<IndexValue>)
    ensures r.None? <==> forall k :: 0 <= k < |rows| ==> rows[k].indexId != id
    ensures r.Some? ==> r.value in rows && r.value.indexId == id
    ensures r.Some? ==> forall k :: 0 <= k < |rows| && rows[k].indexId == id ==>
                          !Before(rows[k].baseDate, r.value.baseDate)
  {
    if rows == [] then None
    else
      var e := EarliestRow(rows[..|rows| - 1], id);
      var x := rows[|rows| - 1];
      if x.indexId == id && (e.None? || Before(x.baseDate, e.value.baseDate)) then Some(x) else e
  }

  /** The latest row of index `id` among `rows`; on equal dates the one met first. */
  function LatestRow(rows: seq<IndexValue>, id: int): (r: Option<IndexValue>)
    ensures r.None? <==> forall k :: 0 <= k < |rows| ==> rows[k].indexId != id
    ensures r.Some? ==> r.value in rows && r.value.indexId == id
    ensures r.Some? ==> forall k :: 0 <= k < |rows| && rows[k].indexId == id ==>
                          !Before(r.value.baseDate, rows[k].baseDate)
  {
    if rows == [] then None
    else
      var e := LatestRow(rows[..|rows| - 1], id);
      var x := rows[|rows| - 1];
      if x.indexId == id && (e.None? || Before(e.value.baseDate, x.baseDate)) then Some(x) else e
  }

  /** findFirstByIndexAndBaseDateGreaterThanOrderByBaseDateAsc(index, d) */
  function FindFirstAfter(store: seq<IndexValue>, id: int, d: Date): (r: Option<IndexValue>)
    ensures r.Some? ==> r.value in store && r.value.indexId == id && Before(d, r.value.baseDate)
    ensures r.Some? ==> forall v :: v in store && v.indexId == id && Before(d, v.baseDate) ==>
                          !Before(v.baseDate, r.value.baseDate)
    ensures r.None? <==> forall v :: v in store && v.indexId == id ==> !Before(d, v.baseDate)
  {
    if store == [] then None
    else
      var init := store[..|store| - 1];
      var x := store[|store| - 1];
      assert store == init + [x];
      var e := FindFirstAfter(init, id, d);
      if x.indexId == id && Before(d, x.baseDate) && (e.None? || Before(x.baseDate, e.value.baseDate)) then Some(x)
      else e
  }

  /** findFirstByIndexAndBaseDateLessThanOrderByBaseDateDesc(index, d) */
  function FindLastBefore(store: seq<IndexValue>, id: int, d: Date): (r: Option<IndexValue>)
    ensures r.Some? ==> r.value in store && r.value.indexId == id && Before(r.value.baseDate, d)
    ensures r.Some? ==> forall v :: v in store && v.indexId == id && Before(v.baseDate, d) ==>
                          !Before(r.value.baseDate, v.baseDate)
    ensures r.None? <==> forall v :: v in store && v.indexId == id ==> !Before(v.baseDate, d)
  {
    if store == [] then None
    else
      var init := store[..|store| - 1];
      var x := store[|store| - 1];
      assert store == init + [x];
      var e := FindLastBefore(init, id, d);
      if x.indexId == id && Before(x.baseDate, d) && (e.None? || Before(e.value.baseDate, x.baseDate)) then Some(x)
      else e
  }

  /** Rows in ascending base-date order. */
  ghost predicate AscendingByDate(rows: seq<IndexValue>) {
    forall i, j :: 0 <= i < j < |rows| ==> !Before(rows[j].baseDate, rows[i].baseDate)
  }

  function InsertByDate(v: IndexValue, rows: seq<IndexValue>): (r: seq<IndexValue>)
    ensures multiset(r) == multiset(rows) + multiset{v}
  {
    if rows == [] || !Before(rows[0].baseDate, v.baseDate) then [v] + rows
    else
      assert [rows[0]] + rows[1..] == rows;
      [rows[0]] + InsertByDate(v, rows[1..])
  }

  /** No row of `rows` is dated before `x`. */
  ghost predicate NoneBefore(x: IndexValue, rows: seq<IndexValue>) {
    forall k :: 0 <= k < |rows| ==> !Before(rows[k].baseDate, x.baseDate)
  }

  lemma ConsAscending(x: IndexValue, rows: seq<IndexValue>)
    requires AscendingByDate(rows) && NoneBefore(x, rows)
    ensures AscendingByDate([x] + rows)
  {
    var r := [x] + rows;
    forall i, j | 0 <= i < j < |r|
      ensures !Before(r[j].baseDate, r[i].baseDate)
    {
      assert r[j] == rows[j - 1];
    }
  }

  lemma HeadNoneBefore(rows: seq<IndexValue>)
    requires AscendingByDate(rows) && rows != []
    ensures NoneBefore(rows[0], rows[1..]) && AscendingByDate(rows[1..])
  {
    var tail := rows[1..];
    forall i, j | 0 <= i < j < |tail|
      ensures !Before(tail[j].baseDate, tail[i].baseDate)
    {
      assert tail[i] == rows[i + 1] && tail[j] == rows[j + 1];
    }
  }

  lemma NoneBeforeHead(x: IndexValue, rows: seq<IndexValue>)
    requires AscendingByDate(rows) && rows != [] && !Before(rows[0].baseDate, x.baseDate)
    ensures NoneBefore(x, rows)
  {
  }

  lemma NoneBeforeInsert(x: IndexValue, rows: seq<IndexValue>, v: IndexValue, rest: seq<IndexValue>)
    requires NoneBefore(x, rows) && !Before(v.baseDate, x.baseDate)
    requires multiset(rest) == multiset(rows) + multiset{v}
    ensures NoneBefore(x, rest)
  {
    forall k | 0 <= k < |rest|
      ensures !Before(rest[k].baseDate, x.baseDate)
    {
      assert rest[k] in multiset(rows) + multiset{v};
      if rest[k] != v {
        var j :| 0 <= j < |rows| && rows[j] == rest[k];
      }
    }
  }

  /** Inserting into rows in ascending date order keeps them in order. */
  lemma {:induction false} InsertAscending(v: IndexValue, rows: seq<IndexValue>)
    requires AscendingByDate(rows)
    ensures AscendingByDate(InsertByDate(v, rows))
  {
    if rows == [] {
      ConsAscending(v, rows);
    } else if !Before(rows[0].baseDate, v.baseDate) {
      NoneBeforeHead(v, rows);
      ConsAscending(v, rows);
    } else {
      HeadNoneBefore(rows);
      InsertAscending(v, rows[1..]);
      NoneBeforeInsert(rows[0], rows[1..], v, InsertByDate(v, rows[1..]));
      ConsAscending(rows[0], InsertByDate(v, rows[1..]));
    }
  }

  /** The ordering an `OrderByBaseDateAsc` query applies. */
  function SortByDate(rows: seq<IndexValue>): (r: seq<IndexValue>)
    ensures AscendingByDate(r)
    ensures multiset(r) == multiset(rows)
  {
    if rows == [] then []
    else
      assert [rows[0]] + rows[1..] == rows;
      var sorted := SortByDate(rows[1..]);
      InsertAscending(rows[0], sorted);
      InsertByDate(rows[0], sorted)
  }

  /** A row of index `id` dated within [lo, hi]. */
  function OfIndexInRange(id: int, lo: Date, hi: Date): IndexValue -> bool {
    (v: IndexValue) => v.indexId == id && InRange(v.baseDate, lo, hi)
  }

  /** A filter keeps every copy of an element that passes and none of one that fails. */
  lemma {:induction false} FilterCount<T(!new)>(s: seq<T>, p: T -> bool, x: T)
    ensures multiset(Filter(s, p))[x] == if p(x) then multiset(s)[x] else 0
  {
    if s != [] {
      FilterCount(s[1..], p, x);
      assert s == [s[0]] + s[1..];
    }
  }

  /**
   * findByIndexAndBaseDateBetweenOrderByBaseDateAsc(index, lo, hi): every row of the index within
   * [lo, hi], each as often as it is stored, ascending by date.
   */
  function FindInRangeAscending(store: seq<IndexValue>, id: int, lo: Date, hi: Date): (r: seq<IndexValue>)
    ensures AscendingByDate(r)
    ensures forall v :: v in r <==> v in store && v.indexId == id && InRange(v.baseDate, lo, hi)
    ensures multiset(r) == multiset(Filter(store, OfIndexInRange(id, lo, hi)))
  {
    var matching := Filter(store, OfIndexInRange(id, lo, hi));
    var r := SortByDate(matching);
    assert forall v :: v in r <==> v in multiset(r);
    assert forall v :: v in matching <==> v in multiset(matching);
    r
  }

  /** The rows of the range query, counted: each matching stored row as often as it is stored. */
  lemma FindInRangeCount(store: seq<IndexValue>, id: int, lo: Date, hi: Date, v: IndexValue)
    ensures multiset(FindInRangeAscending(store, id, lo, hi))[v]
              == if v.indexId == id && InRange(v.baseDate, lo, hi) then multiset(store)[v] else 0
  {
    FilterCount(store, OfIndexInRange(id, lo, hi), v);
  }
}
