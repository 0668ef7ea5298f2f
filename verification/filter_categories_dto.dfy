/**
 * `FilterCategoriesDto`: the query parameters of the list endpoint, with the transforms
 * applied before validation (trim, the `active` lookup table, `page` 0 to 1, `Number`
 * conversion) and the checks applied after (boolean, numeric, `pageSize` in [1, 9]).
 */
module FilterCategoriesDto {
  import opened Outcomes
  import opened Text
  import opened RequestValues

  /** The validated parameters as the service receives them. */
  datatype FilterCategories = FilterCategories(
    name: Option<string>,
    description: Option<string>,
    search: Option<string>,
    active: Option<bool>,
    pageSize: Option<nat>,
    page: Option<nat>,
    sort: Option<string>)

  const FilterProperties: set<string> :=
    {"name", "description", "search", "active", "pageSize", "page", "sort"}

  const DefaultPageSize: nat := 2
  const MinPageSize: nat := 1
  const MaxPageSize: nat := 9

  /** The value of a text parameter after the trim transform. */
  function TrimParam(raw: Option<string>): (r: Option<string>)
    ensures r.Some? <==> raw.Some?
    ensures r.Some? ==> Trimmed(r.value)
  {
    match raw
    case None => None
    case Some(s) => TrimSpec(s); Some(Trim(s))
  }

  /** The `active` transform: `"0"`/`"false"` and `"1"`/`"true"` become booleans, anything else is left as text. */
  function CoerceActive(raw: string): Json {
    if raw in ["0", "false"] then JBool(false)
    else if raw in ["1", "true"] then JBool(true)
    else JString(raw)
  }

  function ValidateActive(raw: Option<string>): Result<Option<bool>, Violation> {
    match raw
    case None => Ok(None)
    case Some(s) =>
      match CoerceActive(s)
      case JBool(b) => Ok(Some(b))
      case _ => Err(NotBoolean("active"))
  }

  /** `pageSize`: default 2, then `IsNumber`, `Max(9)`, `Min(1)`, first failure reported. */
  function ValidatePageSize(raw: Option<string>): Result<nat, Violation> {
    match raw
    case None => Ok(DefaultPageSize)
    case Some(s) =>
      match ToNumber(s)
      case None => Err(NotNumber("pageSize"))
      case Some(n) =>
        if n > MaxPageSize then Err(AboveMaximum("pageSize", MaxPageSize))
        else if n < MinPageSize then Err(BelowMinimum("pageSize", MinPageSize))
        else Ok(n)
  }

  /** `page`: converted by `Number`, then 0 is rewritten to 1, then `IsNumber`. */
  function ValidatePage(raw: Option<string>): Result<Option<nat>, Violation> {
    match raw
    case None => Ok(None)
    case Some(s) =>
      match ToNumber(s)
      case None => Err(NotNumber("page"))
      case Some(n) => Ok(Some(if n == 0 then 1 else n))
  }

  function ValidateFilter(q: QueryParams): Result<FilterCategories, set<Violation>> {
    var unknown := UnknownProperties(q, FilterProperties);
    var active := ValidateActive(Lookup(q, "active"));
    var pageSize := ValidatePageSize(Lookup(q, "pageSize"));
    var page := ValidatePage(Lookup(q, "page"));
    if unknown == {} && active.Ok? && pageSize.Ok? && page.Ok? then
      Ok(FilterCategories(
        TrimParam(Lookup(q, "name")),
        TrimParam(Lookup(q, "description")),
        TrimParam(Lookup(q, "search")),
        active.value,
        Some(pageSize.value),
        page.value,
        TrimParam(Lookup(q, "sort"))))
    else
      Err(unknown + Errors(active) + Errors(pageSize) + Errors(page))
  }

  /** The `active` table: exactly four spellings are accepted, with these meanings. */
  lemma ActiveCoercion(s: string)
    ensures ValidateActive(Some(s)).Ok? <==> s in {"0", "false", "1", "true"}
    ensures ValidateActive(Some(s)) == Ok(Some(false)) <==> s in {"0", "false"}
    ensures ValidateActive(Some(s)) == Ok(Some(true)) <==> s in {"1", "true"}
    ensures !ValidateActive(Some(s)).Ok? ==> ValidateActive(Some(s)) == Err(NotBoolean("active"))
  {
  }

  /** Whatever is accepted for `pageSize` lies in [1, 9]; absent means 2. */
  lemma PageSizeBounds(raw: Option<string>)
    ensures ValidatePageSize(None) == Ok(DefaultPageSize)
    ensures ValidatePageSize(raw).Ok? ==> MinPageSize <= ValidatePageSize(raw).value <= MaxPageSize
  {
  }

  /** A decimal `pageSize` is accepted exactly when it lies in [1, 9], and then taken as is. */
  lemma PageSizeNumeral(n: nat)
    ensures ValidatePageSize(Some(ShowNat(n))).Ok? <==> MinPageSize <= n <= MaxPageSize
    ensures ValidatePageSize(Some(ShowNat(n))).Ok? ==> ValidatePageSize(Some(ShowNat(n))).value == n
  {
    ToNumberOfShowNat(n);
  }

  /** `page` 0 becomes 1, so an accepted page is never 0; a non-numeric page is rejected. */
  lemma PageNeverZero(raw: Option<string>)
    ensures ValidatePage(Some("0")) == Ok(Some(1))
    ensures ValidatePage(raw).Ok? && ValidatePage(raw).value.Some? ==> ValidatePage(raw).value.value >= 1
    ensures raw.Some? && ToNumber(raw.value).None? ==> ValidatePage(raw) == Err(NotNumber("page"))
  {
    assert Trim("0") == "0" by {
      TrimOfTrimmed("0");
    }
    assert DecimalValue("0") == 0 by {
      assert "0"[..0] == "";
    }
  }

  /**
   * A query is accepted exactly when it names only declared parameters and `active`,
   * `pageSize` and `page` pass their checks. The filter then carries the coerced
   * `active`, the converted page size and page, and each text parameter trimmed, or
   * `None` when it is absent.
   */
  lemma ValidateFilterAccepted(q: QueryParams)
    ensures ValidateFilter(q).Ok? <==>
      && q.Keys <= FilterProperties
      && ValidateActive(Lookup(q, "active")).Ok?
      && ValidatePageSize(Lookup(q, "pageSize")).Ok?
      && ValidatePage(Lookup(q, "page")).Ok?
    ensures ValidateFilter(q).Ok? ==>
      var f := ValidateFilter(q).value;
      && f.active == ValidateActive(Lookup(q, "active")).value
      && f.pageSize == Some(ValidatePageSize(Lookup(q, "pageSize")).value)
      && f.page == ValidatePage(Lookup(q, "page")).value
      && MinPageSize <= f.pageSize.value <= MaxPageSize
      && (f.page.Some? ==> f.page.value >= 1)
      && (f.name.None? <==> "name" !in q)
      && (f.description.None? <==> "description" !in q)
      && (f.search.None? <==> "search" !in q)
      && (f.sort.None? <==> "sort" !in q)
      && (f.name.Some? ==> f.name.value == Trim(q["name"]))
      && (f.description.Some? ==> f.description.value == Trim(q["description"]))
      && (f.search.Some? ==> f.search.value == Trim(q["search"]))
      && (f.sort.Some? ==> f.sort.value == Trim(q["sort"]))
  {
    UnknownPropertiesEmpty(q, FilterProperties);
    PageSizeBounds(Lookup(q, "pageSize"));
    PageNeverZero(Lookup(q, "page"));
  }

  /** `active=1` and `active=true` give the same filter, and so do `active=0` and `active=false`. */
  lemma ActiveSpellingsAgree(q: QueryParams)
    ensures ValidateFilter(q["active" := "1"]) == ValidateFilter(q["active" := "true"])
    ensures ValidateFilter(q["active" := "0"]) == ValidateFilter(q["active" := "false"])
  {
    ActiveCoercion("1");
    ActiveCoercion("true");
    ActiveCoercion("0");
    ActiveCoercion("false");
    SameOtherParameters(q["active" := "1"], q["active" := "true"], "active");
    SameOtherParameters(q["active" := "0"], q["active" := "false"], "active");
  }

  /** A numeral `pageSize` outside [1, 9] is refused, with the bound it breaks. */
  lemma PageSizeOutOfRangeRejected(q: QueryParams, n: nat)
    requires n < MinPageSize || n > MaxPageSize
    ensures ValidateFilter(q["pageSize" := ShowNat(n)]).Err?
    ensures n > MaxPageSize ==> AboveMaximum("pageSize", MaxPageSize) in ValidateFilter(q["pageSize" := ShowNat(n)]).error
    ensures n < MinPageSize ==> BelowMinimum("pageSize", MinPageSize) in ValidateFilter(q["pageSize" := ShowNat(n)]).error
  {
    ToNumberOfShowNat(n);
  }

  /** Two queries that differ at most in `key` agree on every other parameter and on the unknown ones. */
  lemma SameOtherParameters(q1: QueryParams, q2: QueryParams, key: string)
    requires key in FilterProperties && q1.Keys == q2.Keys
    requires forall k :: k in q1 && k != key ==> q1[k] == q2[k]
    ensures UnknownProperties(q1, FilterProperties) == UnknownProperties(q2, FilterProperties)
    ensures forall k :: k != key ==> Lookup(q1, k) == Lookup(q2, k)
  {
  }

  /** An undeclared parameter is always rejected, and named in the report. */
  lemma UnknownParameterRejected(q: QueryParams, k: string)
    requires k in q && k !in FilterProperties
    ensures ValidateFilter(q).Err? && UnknownProperty(k) in ValidateFilter(q).error
  {
  }
}
