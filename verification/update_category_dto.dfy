/**
 * `UpdateCategoryDto`: every property is optional. An absent property leaves its
 * column alone; `IsOptional` also lets an explicit `null` through unchecked, which then
 * asks the store to clear the column. There is no `id` property, so the whitelist
 * rejects any attempt to change it. `createdDate` is converted with `new Date(...)`
 * before `IsDate` checks it.
 */
module UpdateCategoryDto {
  import opened Outcomes
  import opened RequestValues
  import opened CategoryEntity
  import opened CreateCategoryDto

  /** What an update does to one column. */
  datatype Patch<+T> = Keep | SetNull | Set(value: T)

  /** The validated partial payload; it has no `id`. */
  datatype UpdateCategory = UpdateCategory(
    slug: Patch<string>,
    name: Patch<string>,
    description: Patch<string>,
    createdDate: Patch<Timestamp>,
    active: Patch<bool>)

  const UpdateProperties: set<string> := {"slug", "name", "description", "createdDate", "active"}

  /** The largest magnitude a JavaScript `Date` holds, in milliseconds (the time value bound of ECMAScript). */
  const MaxTimeValue: int := 8_640_000_000_000_000

  /**
   * `new Date(value)` followed by `IsDate`. A number is a time value and must be within
   * range; a boolean converts to 0 or 1; text goes through the date parser, which is a
   * parameter; objects and arrays never give a valid date.
   */
  function ToDate(v: Json, parseDate: string -> Option<Timestamp>): Result<Timestamp, Violation> {
    match v
    case JNumber(n) => if -MaxTimeValue <= n <= MaxTimeValue then Ok(n) else Err(NotDate("createdDate"))
    case JBool(b) => Ok(if b then 1 else 0)
    case JString(s) =>
      if parseDate(s).Some? && -MaxTimeValue <= parseDate(s).value <= MaxTimeValue then Ok(parseDate(s).value)
      else Err(NotDate("createdDate"))
    case _ => Err(NotDate("createdDate"))
  }

  function ValidateText(property: string, v: Json): Result<string, Violation> {
    if v.JString? then Ok(v.s) else Err(NotString(property))
  }

  /** `IsOptional`: absent keeps the column, null clears it, anything else must pass the checks. */
  function Optional<T>(raw: Option<Json>, checked: Result<T, Violation>): Result<Patch<T>, Violation> {
    match raw
    case None => Ok(Keep)
    case Some(JNull) => Ok(SetNull)
    case Some(_) => if checked.Ok? then Ok(Set(checked.value)) else Err(checked.error)
  }

  function ValidateUpdate(body: Body, rows: seq<Category>, slugPattern: string -> bool, parseDate: string -> Option<Timestamp>)
    : Result<UpdateCategory, set<Violation>>
  {
    var unknown := UnknownProperties(body, UpdateProperties);
    var slug := Optional(Lookup(body, "slug"), ValidateSlug(Lookup(body, "slug"), rows, slugPattern));
    var name := Optional(Lookup(body, "name"), ValidateName(Lookup(body, "name")));
    var description := Optional(Lookup(body, "description"),
      if "description" in body then ValidateText("description", body["description"]) else Err(NotString("description")));
    var createdDate := Optional(Lookup(body, "createdDate"),
      if "createdDate" in body then ToDate(body["createdDate"], parseDate) else Err(NotDate("createdDate")));
    var active := Optional(Lookup(body, "active"), ValidateActive(Lookup(body, "active")));
    if unknown == {} && slug.Ok? && name.Ok? && description.Ok? && createdDate.Ok? && active.Ok? then
      Ok(UpdateCategory(slug.value, name.value, description.value, createdDate.value, active.value))
    else
      Err(unknown + Errors(slug) + Errors(name) + Errors(description) + Errors(createdDate) + Errors(active))
  }

  /** What a present, non-null property must be for the update to be accepted. */
  predicate ValidUpdateValue(key: string, v: Json, rows: seq<Category>, slugPattern: string -> bool, parseDate: string -> Option<Timestamp>) {
    match key
    case "slug" => v.JString? && slugPattern(v.s) && !HasSlug(rows, v.s)
    case "name" => v.JString?
    case "description" => v.JString?
    case "createdDate" => ToDate(v, parseDate).Ok?
    case "active" => v.JBool?
    case _ => false
  }

  /** Any subset of the five properties is accepted as long as each present value is null or passes its checks. */
  lemma ValidateUpdateAccepted(body: Body, rows: seq<Category>, slugPattern: string -> bool, parseDate: string -> Option<Timestamp>)
    ensures ValidateUpdate(body, rows, slugPattern, parseDate).Ok? <==>
      && body.Keys <= UpdateProperties
      && forall k :: k in body && !body[k].JNull? ==> ValidUpdateValue(k, body[k], rows, slugPattern, parseDate)
  {
    UnknownPropertiesEmpty(body, UpdateProperties);
    var ok := ValidateUpdate(body, rows, slugPattern, parseDate).Ok?;
    if ok {
      forall k | k in body && !body[k].JNull? ensures ValidUpdateValue(k, body[k], rows, slugPattern, parseDate) {
        assert k in UpdateProperties;
      }
    }
    if body.Keys <= UpdateProperties && forall k :: k in body && !body[k].JNull? ==> ValidUpdateValue(k, body[k], rows, slugPattern, parseDate) {
      if "slug" in body && !body["slug"].JNull? {
        assert ValidUpdateValue("slug", body["slug"], rows, slugPattern, parseDate);
      }
      if "createdDate" in body && !body["createdDate"].JNull? {
        assert ValidUpdateValue("createdDate", body["createdDate"], rows, slugPattern, parseDate);
      }
    }
  }

  /** In an accepted update each column's patch follows its property: absent keeps it, `null` clears it, a value sets it to that value. */
  lemma ValidatedUpdatePatches(body: Body, rows: seq<Category>, slugPattern: string -> bool, parseDate: string -> Option<Timestamp>)
    requires ValidateUpdate(body, rows, slugPattern, parseDate).Ok?
    ensures var u := ValidateUpdate(body, rows, slugPattern, parseDate).value;
      && (u.slug.Keep? <==> "slug" !in body)
      && (u.name.Keep? <==> "name" !in body)
      && (u.description.Keep? <==> "description" !in body)
      && (u.createdDate.Keep? <==> "createdDate" !in body)
      && (u.active.Keep? <==> "active" !in body)
      && (u.slug.Set? ==> u.slug.value == body["slug"].s)
      && (u.name.Set? ==> u.name.value == body["name"].s)
      && (u.description.Set? ==> u.description.value == body["description"].s)
      && (u.active.Set? ==> u.active.value == body["active"].b)
      && (u.createdDate.Set? ==> u.createdDate.value == ToDate(body["createdDate"], parseDate).value)
      && (u.slug.SetNull? <==> "slug" in body && body["slug"].JNull?)
      && (u.name.SetNull? <==> "name" in body && body["name"].JNull?)
      && (u.description.SetNull? <==> "description" in body && body["description"].JNull?)
      && (u.createdDate.SetNull? <==> "createdDate" in body && body["createdDate"].JNull?)
      && (u.active.SetNull? <==> "active" in body && body["active"].JNull?)
  {
  }

  /** A body naming `id` is always rejected: no update can change a row's id. */
  lemma IdNotUpdatable(body: Body, rows: seq<Category>, slugPattern: string -> bool, parseDate: string -> Option<Timestamp>)
    requires "id" in body
    ensures ValidateUpdate(body, rows, slugPattern, parseDate).Err?
    ensures UnknownProperty("id") in ValidateUpdate(body, rows, slugPattern, parseDate).error
  {
  }

  /** `createdDate`: a time value is accepted exactly within range, text exactly when it parses to one. */
  lemma CreatedDateRules(n: int, s: string, parseDate: string -> Option<Timestamp>)
    ensures ToDate(JNumber(n), parseDate).Ok? <==> -MaxTimeValue <= n <= MaxTimeValue
    ensures ToDate(JString(s), parseDate).Ok? <==> parseDate(s).Some? && -MaxTimeValue <= parseDate(s).value <= MaxTimeValue
    ensures ToDate(JString(s), parseDate).Ok? ==> ToDate(JString(s), parseDate).value == parseDate(s).value
    ensures ToDate(JStructured, parseDate).Err? && ToDate(JNull, parseDate).Err?
  {
  }
}
