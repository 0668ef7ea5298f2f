/**
 * What arrives at the validation layer: query strings as a map from parameter name to
 * text, JSON bodies as a map from property name to a JSON value, and the constraint
 * violations the validation pipe reports (one per property at most, because the pipe
 * stops at the first failing constraint of each property).
 */
module RequestValues {
  import opened Outcomes

  /** A JSON value. Arrays and objects are not looked into. */
  datatype Json = JString(s: string) | JBool(b: bool) | JNumber(n: int) | JNull | JStructured

  type QueryParams = map<string, string>
  type Body = map<string, Json>

  datatype Violation =
    | UnknownProperty(property: string)  // "property … should not exist"
    | NotString(property: string)
    | NotBoolean(property: string)
    | NotNumber(property: string)
    | NotDate(property: string)
    | NotInEnum(property: string)
    | AboveMaximum(property: string, max: int)
    | BelowMinimum(property: string, min: int)
    | SlugPatternMismatch(property: string)  // `Matches(ENGLISH_INPUT_REGEX)`
    | SlugTaken(slug: string)                // `IsSlugAlreadyExistsValidator`

  function Lookup<V>(m: map<string, V>, key: string): Option<V> {
    if key in m then Some(m[key]) else None
  }

  /** `forbidNonWhitelisted`: every property the DTO does not declare is reported. */
  function UnknownProperties<V>(m: map<string, V>, declared: set<string>): (vs: set<Violation>)
    ensures forall k :: k in m && k !in declared <==> UnknownProperty(k) in vs
    ensures forall v :: v in vs ==> v.UnknownProperty?
  {
    set k | k in m && k !in declared :: UnknownProperty(k)
  }

  /** No property is reported exactly when every property is declared. */
  lemma UnknownPropertiesEmpty<V>(m: map<string, V>, declared: set<string>)
    ensures UnknownProperties(m, declared) == {} <==> m.Keys <= declared
  {
    var vs := UnknownProperties(m, declared);
    if vs != {} {
      var v :| v in vs;
      assert v.property in m && v.property !in declared;
    }
  }

  function Errors<T>(r: Result<T, Violation>): set<Violation> {
    if r.Ok? then {} else {r.error}
  }

  /** How a request fails, as the HTTP layer reports it. */
  datatype Failure =
    | Invalid(violations: set<Violation>)  // 400, one message per violation
    | BadRequest(message: string)          // 400, thrown with a fixed message
    | SlugFormat                           // 400, thrown with the slug-pattern message
    | NotFound(message: string)            // 404
    | ServerError                          // 500, a database constraint refused the write
}
