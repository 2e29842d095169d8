/**
 * The query choice of findIndexData (which repository query a page request issues, with which
 * arguments), the Sort built by getSort, and parseDateOrDefault. The queries themselves and the
 * page-to-response mappers are outside the model; `parseDecimal` stands for new BigDecimal(String)
 * and `parseDate` for LocalDate.parse, both failing with None.
 */
module Paging {
  import opened Results
  import opened Decimals
  import opened Dates

  datatype Direction = Asc | Desc

  /** One Sort.Order: a direction and a property name. */
  datatype Order = Order(direction: Direction, property: string)

  /** IndexDataQueryRequest; every field may be null. */
  datatype QueryRequest = QueryRequest(
    indexInfoId: Option<int>,
    startDate: Option<Date>,
    endDate: Option<Date>,
    cursor: Option<string>,
    idAfter: Option<int>)

  /** The repository query findIndexData issues, with the arguments it passes. */
  datatype StoreQuery =
    | FindAll
    | FindInRange(indexId: int, start: Date, end: Date)
    | ClosingPriceCursorDesc(indexId: int, start: Date, end: Date, price: Dec, idAfter: Option<int>)
    | ClosingPriceCursorAsc(indexId: int, start: Date, end: Date, price: Dec, idAfter: Option<int>)
    | BaseDateCursorDesc(indexId: int, start: Date, end: Date, date: Date, idAfter: Option<int>)
    | BaseDateCursorAsc(indexId: int, start: Date, end: Date, date: Date, idAfter: Option<int>)

  /**
   * findIndexData's choice of query. `sort` is the pageable's Sort (its first order decides);
   * `today` is LocalDate.now().
   */
  function SelectQuery(req: QueryRequest, sort: seq<Order>, today: Date,
                       parseDecimal: string -> Option<Dec>, parseDate: string -> Option<Date>)
    : (r: Result<StoreQuery>)
    // without an index id: the unfiltered recency page, whatever the dates, cursor and sort
    ensures req.indexInfoId.None? ==> r == Ok(FindAll)
    // with an index id the first sort order is read first, and it must exist
    ensures req.indexInfoId.Some? && sort == [] ==> r == Err(NoSortOrder)
    // every filtered query is for the requested index over the defaulted date range
    ensures r.Ok? && !r.value.FindAll? ==>
              && r.value.indexId == req.indexInfoId.value
              && r.value.start == req.startDate.GetOr(Date1900)
              && r.value.end == req.endDate.GetOr(today)
    // no cursor: the range query
    ensures r.Ok? ==> (r.value.FindInRange? <==> req.indexInfoId.Some? && req.cursor.None?)
    // a cursor on closingPrice is read as a decimal, any other property's as a date
    ensures r.Ok? && (r.value.ClosingPriceCursorDesc? || r.value.ClosingPriceCursorAsc?) ==>
              && req.cursor.Some? && sort[0].property == "closingPrice"
              && Some(r.value.price) == parseDecimal(req.cursor.value)
              && r.value.idAfter == req.idAfter
              && (r.value.ClosingPriceCursorDesc? <==> sort[0].direction == Desc)
    ensures r.Ok? && (r.value.BaseDateCursorDesc? || r.value.BaseDateCursorAsc?) ==>
              && req.cursor.Some? && sort[0].property != "closingPrice"
              && Some(r.value.date) == parseDate(req.cursor.value)
              && r.value.idAfter == req.idAfter
              && (r.value.BaseDateCursorDesc? <==> sort[0].direction == Desc)
    // an unreadable cursor is the parser's exception
    ensures r == Err(MalformedDecimal) <==>
              req.indexInfoId.Some? && sort != [] && req.cursor.Some?
              && sort[0].property == "closingPrice" && parseDecimal(req.cursor.value).None?
    ensures r == Err(MalformedDate) <==>
              req.indexInfoId.Some? && sort != [] && req.cursor.Some?
              && sort[0].property != "closingPrice" && parseDate(req.cursor.value).None?
  {
    var start := req.startDate.GetOr(Date1900);
    var end := req.endDate.GetOr(today);
    if req.indexInfoId.None? then Ok(FindAll)
    else if sort == [] then Err(NoSortOrder)
    else
      var id := req.indexInfoId.value;
      var order := sort[0];
      if req.cursor.None? then Ok(FindInRange(id, start, end))
      else if order.property == "closingPrice" then
        match parseDecimal(req.cursor.value)
        case None => Err(MalformedDecimal)
        case Some(price) =>
          if order.direction == Desc then Ok(ClosingPriceCursorDesc(id, start, end, price, req.idAfter))
          else Ok(ClosingPriceCursorAsc(id, start, end, price, req.idAfter))
      else
        match parseDate(req.cursor.value)
        case None => Err(MalformedDate)
        case Some(date) =>
          if order.direction == Desc then Ok(BaseDateCursorDesc(id, start, end, date, req.idAfter))
          else Ok(BaseDateCursorAsc(id, start, end, date, req.idAfter))
  }

  /** A well-formed request with an index id and a sort order always reaches a query. */
  lemma SelectQueryTotal(req: QueryRequest, sort: seq<Order>, today: Date,
                         parseDecimal: string -> Option<Dec>, parseDate: string -> Option<Date>)
    requires req.indexInfoId.Some? && sort != []
    requires req.cursor.Some? ==>
               if sort[0].property == "closingPrice" then parseDecimal(req.cursor.value).Some?
               else parseDate(req.cursor.value).Some?
    ensures SelectQuery(req, sort, today, parseDecimal, parseDate).Ok?
    ensures !SelectQuery(req, sort, today, parseDecimal, parseDate).value.FindAll?
  {
  }

  /** Character.isWhitespace: the Unicode space, line and paragraph separators other than the
      no-break spaces, and the ASCII controls TAB, LF, VT, FF, CR and FS, GS, RS, US. */
  predicate IsWhitespace(c: char) {
    || c == ' ' || c == '\t' || c == '\n' || c == '\U{000B}' || c == '\U{000C}' || c == '\r'
    || ('\U{001C}' <= c <= '\U{001F}')
    || c == '\U{1680}'
    || ('\U{2000}' <= c <= '\U{2006}')
    || ('\U{2008}' <= c <= '\U{200A}')
    || c == '\U{2028}' || c == '\U{2029}' || c == '\U{205F}' || c == '\U{3000}'
  }

  /** String.isBlank */
  predicate IsBlank(s: string) {
    forall i :: 0 <= i < |s| ==> IsWhitespace(s[i])
  }

  /**
   * "asc".equalsIgnoreCase(s): per character, equal after upper-casing; besides a/A, s/S and
   * c/C this admits LATIN SMALL LETTER LONG S, whose upper case is S.
   */
  predicate IsAscIgnoringCase(s: string) {
    && |s| == 3
    && (s[0] == 'a' || s[0] == 'A')
    && (s[1] == 's' || s[1] == 'S' || s[1] == '\U{017F}')
    && (s[2] == 'c' || s[2] == 'C')
  }

  /** getSort(sortField, sortDirection): a single order. */
  function GetSort(sortField: Option<string>, sortDirection: Option<string>): (r: Order)
    // ascending only for "asc" in any letter case; null or anything else sorts descending
    ensures r.direction == Asc <==> sortDirection.Some? && IsAscIgnoringCase(sortDirection.value)
    // a null or blank field falls back to baseDate; any other field is used as given
    ensures sortField.None? || IsBlank(sortField.value) ==> r.property == "baseDate"
    ensures sortField.Some? && !IsBlank(sortField.value) ==> r.property == sortField.value
    // the property of a Sort always has text
    ensures !IsBlank(r.property)
  {
    var field := if sortField.None? || IsBlank(sortField.value) then "baseDate" else sortField.value;
    var direction := if sortDirection.Some? && IsAscIgnoringCase(sortDirection.value) then Asc else Desc;
    assert field == "baseDate" ==> !IsWhitespace(field[0]);
    Order(direction, field)
  }

  /** parseDateOrDefault: null or empty text gives the default; other text must parse. */
  function ParseDateOrDefault(text: Option<string>, default: Date, parseDate: string -> Option<Date>)
    : (r: Result<Date>)
    ensures text.None? || text.value == "" ==> r == Ok(default)
    ensures text.Some? && text.value != "" ==>
              (r.Ok? <==> parseDate(text.value).Some?)
              && (r.Ok? ==> Some(r.value) == parseDate(text.value))
              && (r.Err? ==> r.error == MalformedDate)
  {
    if text.None? || text.value == "" then Ok(default)
    else
      match parseDate(text.value)
      case Some(d) => Ok(d)
      case None => Err(MalformedDate)
  }
}
