/**
 * `CreateCategoryDto`: `slug`, `name` and `active` are required, `description` is
 * optional and may be null. Each property reports only its first failing constraint;
 * the slug's constraints run in the order `IsString`, `Matches`, then the uniqueness
 * check against the store.
 */
module CreateCategoryDto {
  import opened Outcomes
  import opened RequestValues
  import opened CategoryEntity
  import opened SlugValidator

  datatype CreateCategory = CreateCategory(slug: string, name: string, description: Option<string>, active: bool)

  const CreateProperties: set<string> := {"slug", "name", "description", "active"}

  /** The slug's chain once it is known to be text: the pattern, then the store. */
  function CheckSlugText(s: string, rows: seq<Category>, slugPattern: string -> bool): (r: Result<string, Violation>)
    ensures r == Ok(s) <==> slugPattern(s) && !HasSlug(rows, s)
    ensures r.Err? ==> r.error in {SlugPatternMismatch("slug"), SlugTaken(s)}
  {
    SlugIsFreeIff(rows, s);
    if !slugPattern(s) then Err(SlugPatternMismatch("slug"))
    else if !SlugIsFree(rows, s) then Err(SlugTaken(s))
    else Ok(s)
  }

  function ValidateSlug(raw: Option<Json>, rows: seq<Category>, slugPattern: string -> bool): Result<string, Violation> {
    match raw
    case Some(JString(s)) => CheckSlugText(s, rows, slugPattern)
    case _ => Err(NotString("slug"))
  }

  function ValidateName(raw: Option<Json>): Result<string, Violation> {
    match raw
    case Some(JString(s)) => Ok(s)
    case _ => Err(NotString("name"))
  }

  /** `IsOptional` lets an absent or null description through; a present one must be text. */
  function ValidateDescription(raw: Option<Json>): Result<Option<string>, Violation> {
    match raw
    case None => Ok(None)
    case Some(JNull) => Ok(None)
    case Some(JString(s)) => Ok(Some(s))
    case _ => Err(NotString("description"))
  }

  function ValidateActive(raw: Option<Json>): Result<bool, Violation> {
    match raw
    case Some(JBool(b)) => Ok(b)
    case _ => Err(NotBoolean("active"))
  }

  function ValidateCreate(body: Body, rows: seq<Category>, slugPattern: string -> bool): Result<CreateCategory, set<Violation>> {
    var unknown := UnknownProperties(body, CreateProperties);
    var slug := ValidateSlug(Lookup(body, "slug"), rows, slugPattern);
    var name := ValidateName(Lookup(body, "name"));
    var description := ValidateDescription(Lookup(body, "description"));
    var active := ValidateActive(Lookup(body, "active"));
    if unknown == {} && slug.Ok? && name.Ok? && description.Ok? && active.Ok? then
      Ok(CreateCategory(slug.value, name.value, description.value, active.value))
    else
      Err(unknown + Errors(slug) + Errors(name) + Errors(description) + Errors(active))
  }

  /** A body describes a new category exactly when it has only the four properties, a text slug that fits the pattern and is not stored yet, a text name, a boolean `active`, and a description that is absent, null or text. */
  predicate WellFormedCreate(body: Body, rows: seq<Category>, slugPattern: string -> bool) {
    && body.Keys <= CreateProperties
    && "slug" in body && body["slug"].JString? && slugPattern(body["slug"].s) && !HasSlug(rows, body["slug"].s)
    && "name" in body && body["name"].JString?
    && "active" in body && body["active"].JBool?
    && ("description" in body ==> body["description"].JNull? || body["description"].JString?)
  }

  lemma ValidateCreateAccepted(body: Body, rows: seq<Category>, slugPattern: string -> bool)
    ensures ValidateCreate(body, rows, slugPattern).Ok? <==> WellFormedCreate(body, rows, slugPattern)
    ensures ValidateCreate(body, rows, slugPattern).Ok? ==>
      var c := ValidateCreate(body, rows, slugPattern).value;
      && c.slug == body["slug"].s && c.name == body["name"].s && c.active == body["active"].b
      && c.description == (if "description" in body && body["description"].JString? then Some(body["description"].s) else None)
  {
    UnknownPropertiesEmpty(body, CreateProperties);
  }

  /** A slug outside the pattern or already stored is reported, whatever the other properties hold. */
  lemma SlugRejections(body: Body, rows: seq<Category>, slugPattern: string -> bool)
    requires "slug" in body && body["slug"].JString?
    ensures !slugPattern(body["slug"].s) ==>
      ValidateCreate(body, rows, slugPattern).Err? && SlugPatternMismatch("slug") in ValidateCreate(body, rows, slugPattern).error
    ensures slugPattern(body["slug"].s) && HasSlug(rows, body["slug"].s) ==>
      ValidateCreate(body, rows, slugPattern).Err? && SlugTaken(body["slug"].s) in ValidateCreate(body, rows, slugPattern).error
  {
  }

  /** A body with only a slug, or only a slug and a name, lacks a required property. */
  lemma MissingRequiredRejected(body: Body, rows: seq<Category>, slugPattern: string -> bool)
    requires "name" !in body || "active" !in body
    ensures ValidateCreate(body, rows, slugPattern).Err?
    ensures "name" !in body ==> NotString("name") in ValidateCreate(body, rows, slugPattern).error
    ensures "active" !in body ==> NotBoolean("active") in ValidateCreate(body, rows, slugPattern).error
  {
  }
}
