/**
 * `UpdateCategoryPipe`: after validation, a body with no properties at all is refused
 * with a fixed message; anything else, a missing body included, passes unchanged.
 */
module UpdateCategoryPipe {
  import opened Outcomes
  import opened RequestValues
  import opened UpdateCategoryDto

  const EmptyBodyMessage: string := "Необходимо передать в body хотя бы один параметр"

  function PatchKey<T>(p: Patch<T>): nat {
    if p.Keep? then 0 else 1
  }

  /** `Object.keys(body).length`: the properties the validated body still carries. */
  function KeyCount(u: UpdateCategory): nat {
    PatchKey(u.slug) + PatchKey(u.name) + PatchKey(u.description) + PatchKey(u.createdDate) + PatchKey(u.active)
  }

  function Transform(body: Option<UpdateCategory>): Result<Option<UpdateCategory>, Failure> {
    if body.Some? && KeyCount(body.value) == 0 then Err(BadRequest(EmptyBodyMessage)) else Ok(body)
  }

  /** The only refused body is the one that changes no column; everything else comes back as it was. */
  lemma TransformSpec(body: Option<UpdateCategory>)
    ensures Transform(body).Err? <==> body == Some(UpdateCategory(Keep, Keep, Keep, Keep, Keep))
    ensures Transform(body).Err? ==> Transform(body).error == BadRequest(EmptyBodyMessage)
    ensures Transform(body).Ok? ==> Transform(body).value == body
  {
  }

  /** A validated body changes no column exactly when the request named no property, so the pipe refuses exactly the empty JSON object. */
  lemma EmptyRequestBodyRefused(body: Body, rows: seq<CategoryEntity.Category>, slugPattern: string -> bool,
                                parseDate: string -> Option<CategoryEntity.Timestamp>)
    requires ValidateUpdate(body, rows, slugPattern, parseDate).Ok?
    ensures Transform(Some(ValidateUpdate(body, rows, slugPattern, parseDate).value)).Err? <==> body == map[]
  {
    ValidateUpdateAccepted(body, rows, slugPattern, parseDate);
    ValidatedUpdatePatches(body, rows, slugPattern, parseDate);
    if forall k :: k in UpdateProperties ==> k !in body {
      assert body.Keys == {};
    }
  }
}
