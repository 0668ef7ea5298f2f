/**
 * `GetCategoryDto`: which column the get-one endpoint looks up (`SearchFields`) and
 * the value to look for.
 */
module GetCategoryDto {
  import opened Outcomes
  import opened Uuid
  import opened CategoryEntity

  /** The two lookup columns. */
  datatype SearchField = Id | Slug

  function SearchFieldName(f: SearchField): string {
    match f
    case Id => "id"
    case Slug => "slug"
  }

  /** `IsEnum(Object.values(SearchFields))`: the raw text must be one of the enum's values. */
  function ParseSearchField(raw: string): (r: Option<SearchField>)
    ensures r.Some? ==> SearchFieldName(r.value) == raw
    ensures r.None? ==> raw != "id" && raw != "slug"
  {
    if raw == "id" then Some(Id)
    else if raw == "slug" then Some(Slug)
    else None
  }

  datatype GetCategory = GetCategory(field: SearchField, value: string)

  /** `where: { [field]: value }`: the id column compares `uuid` values, the slug column text. */
  predicate KeyMatches(x: Category, field: SearchField, value: string) {
    match field
    case Id => SameUuid(x.id, value)
    case Slug => x.slug == value
  }

  /** Every lookup names one of exactly two columns, and each name parses back to its field. */
  lemma SearchFieldRoundTrip(f: SearchField, raw: string)
    ensures ParseSearchField(SearchFieldName(f)) == Some(f)
    ensures ParseSearchField(raw).Some? <==> raw in {"id", "slug"}
  {
  }
}
