/**
 * `GetCategoryValueValidator` and the validation of the get-one query as a whole. The
 * custom check reads the raw `field` text of the same query: with `id` the value must
 * be a UUID, with `slug` it must fit the slug pattern, and otherwise it is accepted. It
 * throws instead of reporting a violation, so its rejection replaces every other
 * message of the same request. It runs only once `value` has passed `IsString`.
 */
module GetCategoryValidator {
  import opened Outcomes
  import opened Uuid
  import opened RequestValues
  import opened GetCategoryDto

  const UuidMessage: string := "value должно иметь формат uuid"

  const GetCategoryProperties: set<string> := {"field", "value"}

  /** The per-field check; `None` means accepted. It reads nothing but its arguments. */
  function CheckValue(field: Option<string>, value: string, slugPattern: string -> bool): (r: Option<Failure>)
    ensures r.None? <==> (field == Some("id") ==> IsUuid(value)) && (field == Some("slug") ==> slugPattern(value))
    ensures r.Some? ==> r == Some(BadRequest(UuidMessage)) || r == Some(SlugFormat)
  {
    if field == Some("id") && !IsUuid(value) then Some(BadRequest(UuidMessage))
    else if field == Some("slug") && !slugPattern(value) then Some(SlugFormat)
    else None
  }

  /** `field`: `IsEnum`. */
  function ValidateField(raw: Option<string>): Result<SearchField, Violation> {
    if raw.Some? && ParseSearchField(raw.value).Some? then Ok(ParseSearchField(raw.value).value)
    else Err(NotInEnum("field"))
  }

  /** `value`: `IsString`; a query parameter is text whenever it is present. */
  function ValidateValue(raw: Option<string>): Result<string, Violation> {
    if raw.Some? then Ok(raw.value) else Err(NotString("value"))
  }

  function ValidateGetCategory(q: QueryParams, slugPattern: string -> bool): Result<GetCategory, Failure> {
    var unknown := UnknownProperties(q, GetCategoryProperties);
    var field := ValidateField(Lookup(q, "field"));
    var value := ValidateValue(Lookup(q, "value"));
    var thrown := if value.Ok? then CheckValue(Lookup(q, "field"), value.value, slugPattern) else None;
    if thrown.Some? then Err(thrown.value)
    else if unknown == {} && field.Ok? && value.Ok? then Ok(GetCategory(field.value, value.value))
    else Err(Invalid(unknown + Errors(field) + Errors(value)))
  }

  /** A query is accepted exactly when it has only `field` and `value`, the field is `id` or `slug`, and the value passes that field's check; the DTO then carries both unchanged. */
  lemma ValidateGetCategoryAccepted(q: QueryParams, slugPattern: string -> bool)
    ensures ValidateGetCategory(q, slugPattern).Ok? <==>
      && q.Keys <= GetCategoryProperties
      && "field" in q && q["field"] in {"id", "slug"}
      && "value" in q
      && (q["field"] == "id" ==> IsUuid(q["value"]))
      && (q["field"] == "slug" ==> slugPattern(q["value"]))
    ensures ValidateGetCategory(q, slugPattern).Ok? ==>
      && SearchFieldName(ValidateGetCategory(q, slugPattern).value.field) == q["field"]
      && ValidateGetCategory(q, slugPattern).value.value == q["value"]
  {
    if "field" in q {
      SearchFieldRoundTrip(Id, q["field"]);
    }
  }

  /** With `field=id`, a value that is not a UUID gets the uuid-format message, whatever else the query holds. */
  lemma NonUuidRejected(q: QueryParams, slugPattern: string -> bool)
    requires "field" in q && q["field"] == "id" && "value" in q && !IsUuid(q["value"])
    ensures ValidateGetCategory(q, slugPattern) == Err(BadRequest(UuidMessage))
  {
  }

  /** With `field=slug`, a value outside the slug pattern gets the slug message, whatever else the query holds. */
  lemma BadSlugRejected(q: QueryParams, slugPattern: string -> bool)
    requires "field" in q && q["field"] == "slug" && "value" in q && !slugPattern(q["value"])
    ensures ValidateGetCategory(q, slugPattern) == Err(SlugFormat)
  {
  }

  /** Empty `field` and `value` are rejected by the enum check alone. */
  lemma EmptyFieldRejected(slugPattern: string -> bool)
    ensures ValidateGetCategory(map["value" := "", "field" := ""], slugPattern) == Err(Invalid({NotInEnum("field")}))
  {
    var q := map["value" := "", "field" := ""];
    assert q.Keys <= GetCategoryProperties;
    UnknownPropertiesEmpty(q, GetCategoryProperties);
    var none: set<Violation> := {};
    assert UnknownProperties(q, GetCategoryProperties) + {NotInEnum("field")} + none == {NotInEnum("field")};
  }

  /** A query naming neither `field` nor `value` is rejected with all three violations. */
  lemma MissingParametersRejected(slugPattern: string -> bool)
    ensures ValidateGetCategory(map["id" := "id"], slugPattern)
      == Err(Invalid({UnknownProperty("id"), NotInEnum("field"), NotString("value")}))
  {
    var q := map["id" := "id"];
    var unknown := UnknownProperties(q, GetCategoryProperties);
    forall v | v in unknown ensures v == UnknownProperty("id") {
      assert v.property in q;
    }
    assert UnknownProperty("id") in unknown;
    assert unknown == {UnknownProperty("id")};
    assert unknown + {NotInEnum("field")} + {NotString("value")}
      == {UnknownProperty("id"), NotInEnum("field"), NotString("value")};
  }
}
