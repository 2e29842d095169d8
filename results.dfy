/** Failure-compatible wrappers for the service's nullable values and exceptions. */
module Results {

  /** A Java reference that may be null. */
  datatype Option<+T> = None | Some(value: T) {
    function GetOr(default: T): T {
      if Some? then value else default
    }
  }

  /** The exceptions the service throws (or lets through) as values. */
  datatype Error =
    | NotFound               // NotFoundException: no index value with the requested id
    | IndexNotFound          // CustomException(INDEX_NOT_FOUND): no index with the requested id
    | UnexpectedPeriod       // IllegalStateException: period type outside the five keywords
    | DivisionByZero         // ArithmeticException from BigDecimal.divide
    | MalformedDecimal       // NumberFormatException from new BigDecimal(cursor)
    | MalformedDate          // DateTimeParseException from LocalDate.parse
    | NoSortOrder            // NoSuchElementException: the pageable carries no sort order
    | NegativeLimit          // IllegalArgumentException from List.subList(0, limit) with limit < 0

  /** Either a value or the exception that ended the computation. */
  datatype Result<+T> = Ok(value: T) | Err(error: Error) {
    predicate IsFailure() {
      Err?
    }

    function PropagateFailure<U>(): Result<U>
      requires Err?
    {
      Err(error)
    }

    function Extract(): T
      requires Ok?
    {
      value
    }
  }
}
