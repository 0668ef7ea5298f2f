/**
 * `CategoriesController`, and the request handlers that put the validation pipe, the
 * update pipe and the controller in front of the service. A refused write becomes a
 * server error; an update or delete that affects no row becomes not-found.
 */
module CategoriesController {
  import opened Outcomes
  import opened RequestValues
  import opened CategoryEntity
  import opened FilterCategoriesDto
  import opened GetCategoryDto
  import opened GetCategoryValidator
  import opened CreateCategoryDto
  import opened UpdateCategoryDto
  import opened UpdateCategoryPipe
  import opened SlugValidator
  import opened CategoriesService
  import opened Text
  import CategoryQuery

  /** The body of a successful create: `{ id }` and nothing else. */
  datatype Created = Created(id: string)

  const NotFoundPrefix: string := "Категория с id "
  const NotUpdatedSuffix: string := " не была изменена, т.к. ее не существует"
  const NotDeletedSuffix: string := " не была удалена, т.к. ее не существует"

  function NotUpdatedMessage(id: string): string {
    NotFoundPrefix + id + NotUpdatedSuffix
  }

  function NotDeletedMessage(id: string): string {
    NotFoundPrefix + id + NotDeletedSuffix
  }

  /** The not-found messages name the id: different ids give different messages, and the two operations never share one. */
  lemma NotFoundMessagesNameTheId(a: string, b: string)
    ensures NotUpdatedMessage(a) == NotUpdatedMessage(b) ==> a == b
    ensures NotDeletedMessage(a) == NotDeletedMessage(b) ==> a == b
    ensures NotUpdatedMessage(a) != NotDeletedMessage(b)
  {
    var p := |NotFoundPrefix|;
    if NotUpdatedMessage(a) == NotUpdatedMessage(b) {
      assert |a| == |b|;
      assert a == NotUpdatedMessage(a)[p..p + |a|];
      assert b == NotUpdatedMessage(b)[p..p + |b|];
    }
    if NotDeletedMessage(a) == NotDeletedMessage(b) {
      assert |a| == |b|;
      assert a == NotDeletedMessage(a)[p..p + |a|];
      assert b == NotDeletedMessage(b)[p..p + |b|];
    }
    var mu := NotUpdatedMessage(a);
    var md := NotDeletedMessage(b);
    assert mu[|mu| - 27] == NotUpdatedSuffix[|NotUpdatedSuffix| - 27] == 'н';
    assert md[|md| - 27] == NotDeletedSuffix[|NotDeletedSuffix| - 27] == 'л';
  }

  /** `create`: the new row's id, or a server error for a write the database refuses. */
  function CreateResponse(r: Result<Category, StoreError>): (out: Result<Created, Failure>)
    ensures r.Ok? <==> out.Ok?
    ensures out.Ok? ==> out.value.id == r.value.id
    ensures out.Err? ==> out.error == ServerError
  {
    match r
    case Ok(c) => Ok(Created(c.id))
    case Err(_) => Err(ServerError)
  }

  /** `update`: nothing on success, not-found when no row was affected. */
  function UpdateResponse(id: string, r: Result<nat, StoreError>): Result<(), Failure> {
    match r
    case Err(_) => Err(ServerError)
    case Ok(affected) => if affected == 0 then Err(NotFound(NotUpdatedMessage(id))) else Ok(())
  }

  /** `delete`: nothing on success, not-found when no row was affected. */
  function DeleteResponse(id: string, affected: nat): Result<(), Failure> {
    if affected == 0 then Err(NotFound(NotDeletedMessage(id))) else Ok(())
  }

  /** Not-found is reported exactly for an affected count of 0, and success exactly for a positive one. */
  lemma AffectedCountMapping(id: string, r: Result<nat, StoreError>, affected: nat)
    ensures UpdateResponse(id, r) == Err(NotFound(NotUpdatedMessage(id))) <==> r == Ok(0)
    ensures UpdateResponse(id, r).Ok? <==> r.Ok? && r.value > 0
    ensures r.Err? ==> UpdateResponse(id, r) == Err(ServerError)
    ensures DeleteResponse(id, affected) == Err(NotFound(NotDeletedMessage(id))) <==> affected == 0
    ensures DeleteResponse(id, affected).Ok? <==> affected > 0
  {
    NotFoundMessagesNameTheId(id, id);
  }

  /** A body that passed validation breaks a constraint only when the id given to it is already stored. */
  lemma ValidatedCreateIsStored(body: Body, rows: seq<Category>, slugPattern: string -> bool, id: string, now: Timestamp)
    requires ValidateCreate(body, rows, slugPattern).Ok?
    ensures InsertError(rows, NewRow(ValidateCreate(body, rows, slugPattern).value, id, now), slugPattern).None? <==> !HasId(rows, id)
  {
    ValidateCreateAccepted(body, rows, slugPattern);
  }

  /**
   * A validated, non-empty update can only fail on a NOT NULL column: the slug it sets
   * fits the pattern and is held by no row at all. Without nulls for required columns
   * it never fails.
   */
  lemma ValidatedUpdateOnlyFailsOnNull(body: Body, rows: seq<Category>, slugPattern: string -> bool,
                                       parseDate: string -> Option<Timestamp>, id: string)
    requires ValidateUpdate(body, rows, slugPattern, parseDate).Ok?
    requires ValidateUpdate(body, rows, slugPattern, parseDate).value != NoChange
    ensures var u := ValidateUpdate(body, rows, slugPattern, parseDate).value;
      UpdateError(rows, id, u, slugPattern).Some? ==>
        UpdateError(rows, id, u, slugPattern) == Some(NullInRequiredColumn) && ClearsRequired(u)
  {
    ValidateUpdateAccepted(body, rows, slugPattern, parseDate);
    ValidatedUpdatePatches(body, rows, slugPattern, parseDate);
    var u := ValidateUpdate(body, rows, slugPattern, parseDate).value;
    if u.slug.Set? {
      assert ValidUpdateValue("slug", body["slug"], rows, slugPattern, parseDate);
    }
  }

  /** `null` for a required column gets past validation and reaches the NOT NULL constraint of a stored row. */
  lemma NullNameReachesStore(rows: seq<Category>, slugPattern: string -> bool, parseDate: string -> Option<Timestamp>, id: string)
    requires HasId(rows, id)
    ensures ValidateUpdate(map["name" := JNull], rows, slugPattern, parseDate) == Ok(UpdateCategory(Keep, SetNull, Keep, Keep, Keep))
    ensures UpdateError(rows, id, UpdateCategory(Keep, SetNull, Keep, Keep, Keep), slugPattern) == Some(NullInRequiredColumn)
  {
    var body := map["name" := JNull];
    UnknownPropertiesEmpty(body, UpdateProperties);
    CountMatchingSpec(rows, id);
  }

  class Controller {
    const service: CategoryService

    constructor (service: CategoryService)
      ensures this.service == service
    {
      this.service := service;
    }

    /** `create`. */
    method Create(body: CreateCategory, id: string, now: Timestamp) returns (r: Result<Created, Failure>)
      requires service.Valid()
      modifies service
      ensures service.Valid()
      ensures var row := NewRow(body, id, now);
        if InsertError(old(service.rows), row, service.slugPattern).None?
        then r == Ok(Created(id)) && service.rows == old(service.rows) + [row]
        else r == Err(ServerError) && service.rows == old(service.rows)
    {
      var saved := service.CreateCategory(body, id, now);
      r := CreateResponse(saved);
    }

    /** `update`. */
    method Update(id: string, body: UpdateCategory) returns (r: Result<(), Failure>)
      requires service.Valid()
      modifies service
      ensures service.Valid()
      ensures match UpdateError(old(service.rows), id, body, service.slugPattern)
        case Some(_) => r == Err(ServerError) && service.rows == old(service.rows)
        case None =>
          && service.rows == UpdateRows(old(service.rows), id, body)
          && (r == Err(NotFound(NotUpdatedMessage(id))) <==> !HasId(old(service.rows), id))
          && (r.Ok? <==> HasId(old(service.rows), id))
    {
      CountMatchingSpec(service.rows, id);
      var result := service.UpdateCategory(id, body);
      AffectedCountMapping(id, result, 0);
      r := UpdateResponse(id, result);
    }

    /** `delete`. */
    method Delete(id: string) returns (r: Result<(), Failure>)
      requires service.Valid()
      modifies service
      ensures service.Valid()
      ensures service.rows == DeleteRows(old(service.rows), id)
      ensures r == Err(NotFound(NotDeletedMessage(id))) <==> !HasId(old(service.rows), id)
      ensures r.Ok? <==> HasId(old(service.rows), id)
    {
      CountMatchingSpec(service.rows, id);
      var affected := service.DeleteCategory(id);
      AffectedCountMapping(id, Ok(0), affected);
      r := DeleteResponse(id, affected);
    }

    /** `getCategoriesList`: the service's answer for the validated parameters, at most one page of kept rows in the requested order. */
    function GetCategoriesList(params: FilterCategories): (r: seq<Category>)
      reads this, service
      ensures params.pageSize.Some? && params.pageSize.value >= 1 ==>
        && |r| <= params.pageSize.value
        && (forall x :: x in r ==> x in service.rows && CategoryQuery.Keeps(params, x))
        && CategoryQuery.SortedBy(r, CategoryQuery.ParseSort(params.sort))
    {
      if params.pageSize.Some? && params.pageSize.value >= 1 then
        CategoryQuery.FindSpec(service.rows, params);
        service.Find(params)
      else
        service.Find(params)
    }

    /** `getCategory`: a stored row with the requested key, if there is one. */
    function GetCategory(params: GetCategory): (r: Option<Category>)
      reads this, service
      ensures r.Some? <==> exists x :: x in service.rows && KeyMatches(x, params.field, params.value)
      ensures r.Some? ==> r.value in service.rows && KeyMatches(r.value, params.field, params.value)
    {
      FindOneSpec(service.rows, params);
      service.FindOne(params)
    }

    // ---- requests, with validation in front ----

    /** `POST /categories`: validate the body against the current table, then create under the generated `id`. */
    method PostCategory(body: Body, id: string, now: Timestamp) returns (r: Result<Created, Failure>)
      requires service.Valid()
      modifies service
      ensures service.Valid()
      ensures match ValidateCreate(body, old(service.rows), service.slugPattern)
        case Err(vs) => r == Err(Invalid(vs)) && service.rows == old(service.rows)
        case Ok(data) =>
          if HasId(old(service.rows), id) then r == Err(ServerError) && service.rows == old(service.rows)
          else r == Ok(Created(id)) && service.rows == old(service.rows) + [NewRow(data, id, now)]
    {
      var checked := ValidateCreate(body, service.rows, service.slugPattern);
      if checked.Err? {
        r := Err(Invalid(checked.error));
      } else {
        ValidatedCreateIsStored(body, service.rows, service.slugPattern, id, now);
        r := Create(checked.value, id, now);
      }
    }

    /** `PATCH /categories/:uuid`: validate, refuse an empty body, then update. */
    method PatchCategory(id: string, body: Body, parseDate: string -> Option<Timestamp>) returns (r: Result<(), Failure>)
      requires service.Valid()
      modifies service
      ensures service.Valid()
      ensures match ValidateUpdate(body, old(service.rows), service.slugPattern, parseDate)
        case Err(vs) => r == Err(Invalid(vs)) && service.rows == old(service.rows)
        case Ok(u) =>
          if u == NoChange then r == Err(BadRequest(EmptyBodyMessage)) && service.rows == old(service.rows)
          else if UpdateError(old(service.rows), id, u, service.slugPattern).Some? then
            r == Err(ServerError) && service.rows == old(service.rows)
          else
            && service.rows == UpdateRows(old(service.rows), id, u)
            && (r.Ok? <==> HasId(old(service.rows), id))
            && (r.Err? ==> r == Err(NotFound(NotUpdatedMessage(id))))
    {
      var checked := ValidateUpdate(body, service.rows, service.slugPattern, parseDate);
      if checked.Err? {
        r := Err(Invalid(checked.error));
      } else {
        var piped := Transform(Some(checked.value));
        TransformSpec(Some(checked.value));
        if piped.Err? {
          r := Err(piped.error);
        } else {
          r := Update(id, checked.value);
        }
      }
    }

    /**
     * `GET /categories`: validate the query, then list. A refused query is a validation
     * failure with the filter's violations; an accepted one gives at most `pageSize`
     * stored rows, each kept by the filter, in the requested order.
     */
    function ListCategories(q: QueryParams): (r: Result<seq<Category>, Failure>)
      reads this, service
      ensures r.Ok? <==> ValidateFilter(q).Ok?
      ensures r.Err? ==> r.error == Invalid(ValidateFilter(q).error)
      ensures r.Ok? ==>
        var f := ValidateFilter(q).value;
        && |r.value| <= f.pageSize.value <= MaxPageSize
        && (forall x :: x in r.value ==> x in service.rows && CategoryQuery.Keeps(f, x))
        && CategoryQuery.SortedBy(r.value, CategoryQuery.ParseSort(f.sort))
    {
      ValidateFilterAccepted(q);
      match ValidateFilter(q)
      case Err(vs) => Err(Invalid(vs))
      case Ok(f) => Ok(GetCategoriesList(f))
    }

    /**
     * `GET /categories/category`: validate the query, then look the row up. A refused
     * query keeps the validator's failure; an accepted one finds a stored row whose
     * requested key is the requested value, finds none only when no row has it, and in a
     * valid table finds the only such row.
     */
    function FindCategory(q: QueryParams): (r: Result<Option<Category>, Failure>)
      reads this, service
      ensures r.Ok? <==> ValidateGetCategory(q, service.slugPattern).Ok?
      ensures r.Err? ==> r.error == ValidateGetCategory(q, service.slugPattern).error
      ensures r.Ok? ==>
        var g := ValidateGetCategory(q, service.slugPattern).value;
        && SearchFieldName(g.field) == q["field"] && g.value == q["value"]
        && (r.value.Some? <==> exists x :: x in service.rows && KeyMatches(x, g.field, q["value"]))
        && (r.value.Some? ==> r.value.value in service.rows && KeyMatches(r.value.value, g.field, q["value"]))
        && (service.Valid() && r.value.Some? ==>
              forall x :: x in service.rows && KeyMatches(x, g.field, q["value"]) ==> x == r.value.value)
    {
      ValidateGetCategoryAccepted(q, service.slugPattern);
      match ValidateGetCategory(q, service.slugPattern)
      case Err(e) => Err(e)
      case Ok(g) => FindOneSpec(service.rows, g); Ok(GetCategory(g))
    }
  }

  /** `active=1` lists the same as `active=true`, and `active=0` the same as `active=false`. */
  lemma ListActiveSpellings(c: Controller, q: QueryParams)
    ensures c.ListCategories(q["active" := "1"]) == c.ListCategories(q["active" := "true"])
    ensures c.ListCategories(q["active" := "0"]) == c.ListCategories(q["active" := "false"])
  {
    ActiveSpellingsAgree(q);
  }

  /** A numeral `pageSize` outside [1, 9] is refused with a validation failure naming the broken bound. */
  lemma ListPageSizeOutOfRange(c: Controller, q: QueryParams, n: nat)
    requires n < MinPageSize || n > MaxPageSize
    ensures c.ListCategories(q["pageSize" := ShowNat(n)]).Err?
    ensures var r := c.ListCategories(q["pageSize" := ShowNat(n)]);
      && r.error.Invalid?
      && (n > MaxPageSize ==> AboveMaximum("pageSize", MaxPageSize) in r.error.violations)
      && (n < MinPageSize ==> BelowMinimum("pageSize", MinPageSize) in r.error.violations)
  {
    PageSizeOutOfRangeRejected(q, n);
  }
}
