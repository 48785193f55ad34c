/** The two HTTP handlers over the processing layer: `GET /properties`
    assembles the filter arguments from its query parameters, and both
    handlers turn exceptions into HTTP errors. */
module Api {
  import opened Listings
  import Filtering
  import Statistics

  /** The query parameters of `GET /properties`; `None` when absent. */
  datatype PropertyQuery = PropertyQuery(
    priceMin: Option<real>,
    priceMax: Option<real>,
    bedrooms: Option<int>,
    bathrooms: Option<int>,
    city: Option<string>)

  /** The parameters the framework lets through to the handler: price
      bounds and counts at least 0, a city of 1 to 100 characters. */
  predicate Admissible(q: PropertyQuery) {
    && (q.priceMin.Some? ==> q.priceMin.value >= 0.0)
    && (q.priceMax.Some? ==> q.priceMax.value >= 0.0)
    && (q.bedrooms.Some? ==> q.bedrooms.value >= 0)
    && (q.bathrooms.Some? ==> q.bathrooms.value >= 0)
    && (q.city.Some? ==> 1 <= |q.city.value| <= 100)
  }

  /** The `filters` dictionary: a price range only when both bounds are
      given; the other three forwarded as they came. */
  function FiltersOf(q: PropertyQuery): (f: Filtering.Filters)
    ensures f.priceRange.Some? <==> q.priceMin.Some? && q.priceMax.Some?
    ensures f.priceRange.Some? ==> f.priceRange.value == (q.priceMin.value, q.priceMax.value)
    ensures f.bedrooms == q.bedrooms && f.bathrooms == q.bathrooms && f.city == q.city
  {
    Filtering.Filters(
      if q.priceMin.Some? && q.priceMax.Some? then Some((q.priceMin.value, q.priceMax.value)) else None,
      q.bedrooms, q.bathrooms, q.city)
  }

  /** An HTTP answer: a body, or an `HTTPException` with status and detail. */
  datatype Response<T> = Ok(body: T) | HttpError(status: int, detail: string)

  const DatabasePrefix: string := "Database error: "
  const ValidationPrefix: string := "Validation error: "
  const UnexpectedPrefix: string := "Unexpected error: "

  /** The `except` clauses of `GET /properties`. */
  function PropertiesFailure(e: Error): (r: Response<seq<Row>>)
    ensures r.HttpError?
    ensures r.status == 400 <==> e.ValidationError?
    ensures r.status == 500 <==> !e.ValidationError?
    ensures e.SqliteError? ==> r.detail == DatabasePrefix + e.msg
    ensures e.ValidationError? ==> r.detail == ValidationPrefix + e.msg
    ensures e.UnexpectedError? ==> r.detail == UnexpectedPrefix + e.msg
  {
    match e
    case SqliteError(msg) => HttpError(500, DatabasePrefix + msg)
    case ValidationError(msg) => HttpError(400, ValidationPrefix + msg)
    case UnexpectedError(msg) => HttpError(500, UnexpectedPrefix + msg)
  }

  /** `GET /properties`. The rows are the dictionary records of what
      `filter_properties` returns; since that never raises, the handler
      never answers with an error. */
  method GetProperties(q: PropertyQuery, access: Access, tables: map<string, Table>)
    returns (r: Response<seq<Row>>)
    requires Admissible(q)
    ensures r == Ok(Filtering.ExpectedRows(access, tables, FiltersOf(q)))
  {
    var rows := Filtering.FilterProperties(access, tables, FiltersOf(q));
    r := Ok(rows);
  }

  /** The `except` clauses of `GET /properties/statistics`: every failure is
      a 500, and only a `sqlite3.Error` is called a database error. */
  function StatisticsResponse(result: Result<Statistics.Stats>): (r: Response<Statistics.Stats>)
    ensures r.Ok? <==> result.Success?
    ensures result.Success? ==> r.body == result.value
    ensures result.Failure? ==> r.status == 500
    ensures result.Failure? && result.error.SqliteError? ==> r.detail == DatabasePrefix + result.error.msg
    ensures result.Failure? && !result.error.SqliteError? ==> r.detail == UnexpectedPrefix + result.error.msg
  {
    match result
    case Success(stats) => Ok(stats)
    case Failure(SqliteError(msg)) => HttpError(500, DatabasePrefix + msg)
    case Failure(e) => HttpError(500, UnexpectedPrefix + e.msg)
  }

  /** `GET /properties/statistics`. */
  method GetStatistics(access: Access, tables: map<string, Table>) returns (r: Response<Statistics.Stats>)
    ensures r == StatisticsResponse(Statistics.StatisticsOf(access, tables))
    ensures access.OpenFailed? ==> r == HttpError(500, DatabasePrefix + access.reason)
  {
    var stats := Statistics.CalculateStatistics(access, tables);
    r := StatisticsResponse(stats);
  }

  /** A one-sided price bound is dropped, not read as a half-open range:
      the rows are those of the same query without it. */
  lemma OneSidedBoundIgnored(q: PropertyQuery, access: Access, tables: map<string, Table>)
    requires q.priceMin.None? || q.priceMax.None?
    ensures Filtering.ExpectedRows(access, tables, FiltersOf(q))
         == Filtering.ExpectedRows(access, tables, FiltersOf(q.(priceMin := None, priceMax := None)))
  {
  }

  /** Any city the framework admits is applied as a filter, and so is any
      positive count; a count of 0 and an absent one filter nothing. */
  lemma AdmissibleFiltersApplied(q: PropertyQuery)
    requires Admissible(q)
    ensures Filtering.CityActive(FiltersOf(q)) <==> q.city.Some?
    ensures Filtering.BedroomsActive(FiltersOf(q)) <==> q.bedrooms.Some? && q.bedrooms.value > 0
    ensures Filtering.BathroomsActive(FiltersOf(q)) <==> q.bathrooms.Some? && q.bathrooms.value > 0
    ensures Filtering.PriceActive(FiltersOf(q)) <==> q.priceMin.Some? && q.priceMax.Some?
  {
  }

  /** With the code as written, a database path that cannot be opened is
      answered as an unexpected error, where the handler means to answer
      it as a database error. */
  lemma OpenFailureReportedAsUnexpected(reason: string)
    ensures StatisticsResponse(Failure(Statistics.OpenFailureAsWritten(reason))).detail[..|UnexpectedPrefix|] == UnexpectedPrefix
    ensures StatisticsResponse(Failure(Statistics.OpenFailureAsWritten(reason)))
         != StatisticsResponse(Statistics.StatisticsOf(OpenFailed(reason), map[]))
  {
    var asWritten := StatisticsResponse(Failure(Statistics.OpenFailureAsWritten(reason)));
    var intended := StatisticsResponse(Statistics.StatisticsOf(OpenFailed(reason), map[]));
    assert intended.detail[..|DatabasePrefix|] == DatabasePrefix;
    assert asWritten.detail[..|UnexpectedPrefix|] == UnexpectedPrefix;
    assert DatabasePrefix[0] != UnexpectedPrefix[0];
  }
}
