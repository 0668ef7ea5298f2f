# Categories service: a Dafny model

This project models the categories module of a small REST service. The service stores
product categories: an id, a unique slug, a name, an optional description, a creation
time and an active flag. It offers five endpoints. Three write: create, partial update
and delete. Two read: one category by id or slug, and a filtered, sorted, paged list.

The model covers these parts:

- **The row** (`CategoryEntity`). A category is a value.
- **The table.** It lives in a `CategoryService` object whose `rows` field the write
  methods reassign. The object keeps the table's constraints as an invariant: unique
  ids, unique slugs, and a slug check.
- **The validation in front of each endpoint.**
  - Whitelisting: an unknown property is an error.
  - One violation per property, at most.
  - Trimming and coercion of the list parameters.
  - The custom check on the get-one `value`.
  - The "slug already exists" check.
  - The update pipe, which refuses a body without properties.
- **The controller's mapping of results to responses.**

The list query is a pure function `Find(rows, filter)`. It selects the rows that meet
every condition, sorts them with a stable insertion sort under the requested order, and
cuts out the page. Lemmas relate it to a direct statement of the filter (`Keeps`), to
sortedness and permutation, and to the paging arithmetic. The four seed rows serve as a
fixture. On them, the model derives the answers that the end-to-end tests
(`test/categories.e2e-spec.ts`) expect.

## How the model reads the source

- **Several values are parameters, not computed:**
  - Every slug pattern uses one parameter, `slugPattern`. That covers the slug regular
    expression from the constants module (not part of this model), the matching CHECK
    constraint, and the get-one slug check.
  - The date parser behind `new Date(text)` is the parameter `parseDate`.
  - The id the database generates is passed in as `id`.
  - The current time is passed in as `now`.
- **Errors:**
  - Violations are collected as a set, so their order in the response is not modelled.
  - The get-one custom validator throws an exception. That exception replaces every
    collected violation (`GetCategoryValidator.ValidateGetCategory`).
- **Nulls:** `IsOptional` lets `null` through unchecked. So an update may ask to clear
  any column. For a required column, the database refuses the request and the caller
  sees a server error (`CategoriesController.NullNameReachesStore`).
- **Refusals by the database:**
  - A write that breaks a constraint is modelled as a `StoreError` and answered with a
    server error.
  - On insert, the constraints are checked in this order: the CHECK constraint, then
    the primary key, then the unique slug.
- **Ids:** the `uuid` column compares values, not text. So two spellings of an id that
  differ only in letter case name the same row (`Uuid.SameUuid`).
- **The search condition:** the model assumes `(name ~* r OR description ~* r) AND active = b`.
  The search clause at `src/modules/categories/categories.service.ts:81-85` is a plain string
  without parentheses, so SQL precedence could also give
  `name ~* r OR (description ~* r AND active = b)`. No end-to-end test combines `search`
  with `active`, so nothing settles which one happens.
- **Sorting:**
  - Text sorts by code point, not by collation.
  - A NULL description sorts after every text in ascending order.
  - `false` sorts before `true`.

## Model

| member | source | states |
|---|---|---|
| CategoryQuery.FieldNamedIff | src/modules/categories/categories.service.ts:11-16 | a text names a sort field exactly when it is that field's enum value |
| CategoryQuery.ParseSortAscending | src/modules/categories/categories.service.ts:65-67 | a bare field name sorts ascending by that field |
| CategoryQuery.ParseSortDescending | src/modules/categories/categories.service.ts:62-64 | `-` followed by a field name sorts descending by that field |
| CategoryQuery.ParseSortCases | src/modules/categories/categories.service.ts:57-68 | every `sort` value yields the default (creation time, newest first), an ascending order named by the whole value, or a descending one named by the value minus its leading `-` |
| CategoryQuery.ParseSortFallback | src/modules/categories/categories.service.ts:57-58 | a value that names no field, with or without `-`, yields the default order |
| CategoryQuery.Offset | src/modules/categories/categories.service.ts:73-74 | an offset exists exactly when both page and page size are present and non-zero |
| CategoryQuery.SelectSpec | src/modules/categories/categories.service.ts:81-102 | the selected rows are exactly the stored rows meeting every condition, none added or repeated |
| CategoryQuery.ConditionsMeanKeeps | src/modules/categories/categories.service.ts:81-102 | the generated conditions hold exactly when the row passes the filter: search on name or description, otherwise name and description separately, then active |
| CategoryQuery.HoldsAllAppend | src/modules/categories/categories.service.ts:81-102 | conditions joined with AND hold exactly when both parts hold |
| CategoryQuery.LexLeTotal | src/modules/categories/categories.service.ts:96-98 | any two texts are comparable in code-point order |
| CategoryQuery.LexLeTransitive | src/modules/categories/categories.service.ts:96-98 | code-point order is transitive |
| CategoryQuery.InOrderTotal | src/modules/categories/categories.service.ts:96-98 | under any sort, any two rows are comparable |
| CategoryQuery.InOrderTransitive | src/modules/categories/categories.service.ts:96-98 | under any sort, the row order is transitive |
| CategoryQuery.BeforeIsTotalPreorder | src/modules/categories/categories.service.ts:96-98 | the `ORDER BY` comparison is a total preorder |
| CategoryQuery.SortRowsSpec | src/modules/categories/categories.service.ts:96-98 | sorting returns a permutation of its input, sorted under the requested order |
| CategoryQuery.WindowStart | src/modules/categories/categories.service.ts:78 | `OFFSET` never starts past the end |
| CategoryQuery.WindowEnd | src/modules/categories/categories.service.ts:79 | `LIMIT` ends between the start and the end |
| CategoryQuery.Window | src/modules/categories/categories.service.ts:76-79 | a page never holds more rows than the limit |
| CategoryQuery.WindowSubset | src/modules/categories/categories.service.ts:76-79 | a page holds only rows of its input |
| CategoryQuery.OrderedSpec | src/modules/categories/categories.service.ts:76-102 | before paging, the result holds exactly the rows the filter keeps, each at most as often as stored, sorted under `sort` |
| CategoryQuery.FindUnfold | src/modules/categories/categories.service.ts:76-104 | `find` is the page, cut from the filtered and sorted rows |
| CategoryQuery.WindowOfPage | src/modules/categories/categories.service.ts:73-79 | page `p` of size `n` is the slice from `(p-1)*n` up to `n` rows, clamped to the rows there are |
| CategoryQuery.FindIsWindow | src/modules/categories/categories.service.ts:73-104 | `find` returns exactly that slice of the filtered, sorted rows |
| CategoryQuery.FindSpec | src/modules/categories/categories.service.ts:48-105 | at most `pageSize` rows, every one stored and kept by the filter, in the requested order |
| CategoryQuery.FindComplete | src/modules/categories/categories.service.ts:48-105 | on the first page, with room for every row, every row the filter keeps is returned |
| CategoryQuery.FirstPageForms | src/modules/categories/categories.service.ts:73-74 | page 0, page 1 and no page give the same result |
| CategoryQuery.SearchOverridesNameAndDescription | src/modules/categories/categories.service.ts:81-94 | with a non-empty search, the name and description parameters change nothing |
| CategoryQuery.ActiveFilterRestricts | src/modules/categories/categories.service.ts:100-102 | with `active` given, every returned row has that value |
| CategoryQuery.BlankParamDropped | src/modules/categories/dto/filterCategories.dto.ts:11-26 | a text parameter of white space only validates to the empty string, and its absence leaves the rest of the filter unchanged |
| CategoryQuery.WhitespaceParamActsAbsent | src/modules/categories/dto/filterCategories.dto.ts:11-26 | a white-space-only `name`, `description`, `search` or `sort` is accepted exactly when its absence is, and gives the same list |
| Sorting.InsertSpec | src/modules/categories/categories.service.ts:96-98 | inserting into a sorted sequence keeps it sorted and adds exactly that element |
| Sorting.InsertionSortSpec | src/modules/categories/categories.service.ts:96-98 | the sort returns a sorted permutation of its input |
| SearchPattern.GetRegexp | src/modules/categories/categories.service.ts:70-71 | the pattern has one class per letter of the term |
| SearchPattern.MatchesAnchoredSpec | src/modules/categories/categories.service.ts:70-71 | an anchored pattern matches exactly when the value is at least as long and each of its leading characters is accepted by the class at its position |
| SearchPattern.RegexMatchesIff | src/modules/categories/categories.service.ts:70-71 | `value ~* getRegexp(term)` holds exactly when the value starts with the term, ignoring case and treating `е` and `ё` alike |
| SearchPattern.EOrYoInterchangeable | src/modules/categories/categories.service.ts:70-71 | writing `е` or `ё` in the term makes no difference |
| SearchPattern.CaseOfValueIgnored | src/modules/categories/categories.service.ts:82 | the `~*` match ignores the case of the value |
| SearchPattern.OnlyPrefixConsulted | src/modules/categories/categories.service.ts:70-71 | the anchored match does not look past the length of the term |
| Text.TrimSpec | src/modules/categories/dto/filterCategories.dto.ts:11 | `trim` returns a piece of its input with no white space at either end, and only white space cut from either end |
| Text.TrimIdempotent | src/modules/categories/dto/filterCategories.dto.ts:11 | trimming twice is trimming once |
| Text.TrimOfTrimmed | src/modules/categories/dto/filterCategories.dto.ts:11 | trimming a trimmed text changes nothing |
| Text.TrimEmptyIff | src/modules/categories/dto/filterCategories.dto.ts:11 | a text trims to empty exactly when it is all white space |
| Text.ToNumberOfShowNat | src/modules/categories/dto/filterCategories.dto.ts:44 | `Number` of a written decimal numeral is its value |
| Text.FoldIdempotent | src/modules/categories/categories.service.ts:82 | case folding twice is folding once |
| FilterCategoriesDto.TrimParam | src/modules/categories/dto/filterCategories.dto.ts:11-26 | a present parameter stays present and comes out trimmed |
| FilterCategoriesDto.ActiveCoercion | src/modules/categories/dto/filterCategories.dto.ts:28-39 | `active` is accepted exactly for `0`, `false`, `1` and `true`: the first two give false, the last two give true, and anything else is a boolean violation |
| FilterCategoriesDto.PageSizeBounds | src/modules/categories/dto/filterCategories.dto.ts:41-46 | without a value the page size is 2; an accepted page size lies between 1 and 9 |
| FilterCategoriesDto.PageSizeNumeral | src/modules/categories/dto/filterCategories.dto.ts:41-46 | a numeral is accepted as page size exactly when its value is 1 to 9, and then it is that value |
| FilterCategoriesDto.PageNeverZero | src/modules/categories/dto/filterCategories.dto.ts:48-52 | page `0` becomes 1; an accepted page is at least 1; a non-numeral is a number violation |
| FilterCategoriesDto.ValidateFilterAccepted | src/modules/categories/dto/filterCategories.dto.ts:11-57 | a query is accepted exactly when it names only declared parameters and `active`, `pageSize` and `page` pass their checks; the filter then holds the coerced `active`, the page size (1 to 9) and the page (at least 1), and each text parameter trimmed, absent exactly when the parameter is |
| FilterCategoriesDto.ActiveSpellingsAgree | src/modules/categories/dto/filterCategories.dto.ts:28-39 | `active=1` and `active=true` validate to the same filter, and so do `active=0` and `active=false` |
| FilterCategoriesDto.PageSizeOutOfRangeRejected | src/modules/categories/dto/filterCategories.dto.ts:41-46 | a numeral page size above 9 is refused with the maximum violation, and one below 1 with the minimum violation |
| FilterCategoriesDto.UnknownParameterRejected | src/modules/categories/dto/filterCategories.dto.ts:12-58 | a parameter outside the filter is refused and named in the violations |
| RequestValues.UnknownProperties | src/modules/categories/dto/createCategory.dto.ts:11-28 | the whitelist reports exactly the properties not declared, and nothing else |
| RequestValues.UnknownPropertiesEmpty | src/modules/categories/dto/createCategory.dto.ts:11-28 | no property is reported exactly when every one is declared |
| Uuid.IsUuidIff | src/modules/categories/validators/getCategory.validator.ts:10-15 | the group-by-group reading of the regular expression is: 36 characters, `-` exactly at 8, 13, 18 and 23, hex digits elsewhere, `4` at 14, and a variant digit at 19 |
| Uuid.IsUuidIgnoresCase | src/modules/categories/validators/getCategory.validator.ts:13 | with the `i` flag, a value passes exactly when its lower-case form does |
| Uuid.UuidFromGroups | src/modules/categories/validators/getCategory.validator.ts:13 | any hex groups of lengths 8, 4, 3, 3 and 12, with version `4` and a variant digit, spell an accepted id |
| Uuid.UuidAcceptsSeedId | src/modules/categories/validators/getCategory.validator.ts:10-15 | the seed id `86713e06-…` passes |
| Uuid.UuidAcceptsUpperCase | src/modules/categories/validators/getCategory.validator.ts:10-15 | an upper-case version-4 id passes |
| Uuid.UuidRejects | src/modules/categories/validators/getCategory.validator.ts:10-15 | `aaa`, a version-1 id and an id with variant digit `c` fail |
| GetCategoryDto.ParseSearchField | src/modules/categories/dto/getCategory.dto.ts:4-11 | a parsed field spells the text it came from; only `id` and `slug` parse |
| GetCategoryDto.SearchFieldRoundTrip | src/modules/categories/dto/getCategory.dto.ts:4-11 | every field parses back from its name, and a text parses exactly when it is `id` or `slug` |
| GetCategoryValidator.CheckValue | src/modules/categories/validators/getCategory.validator.ts:20-34 | the value passes exactly when `field=id` implies a uuid and `field=slug` implies the slug pattern; otherwise it fails with the uuid message or the slug message |
| GetCategoryValidator.ValidateGetCategoryAccepted | src/modules/categories/dto/getCategory.dto.ts:9-16 | a query is accepted exactly when it holds only `field` and `value`, the field is `id` or `slug`, and the value passes its check; the result then carries those two |
| GetCategoryValidator.NonUuidRejected | src/modules/categories/validators/getCategory.validator.ts:26-28 | `field=id` with a non-uuid value is a bad request saying the value must be a uuid |
| GetCategoryValidator.BadSlugRejected | src/modules/categories/validators/getCategory.validator.ts:29-31 | `field=slug` with a value outside the slug pattern is a bad request with the slug message |
| GetCategoryValidator.EmptyFieldRejected | test/categories.e2e-spec.ts:142 | `?value=&field=` is refused with a single enum violation on `field` |
| GetCategoryValidator.MissingParametersRejected | test/categories.e2e-spec.ts:144-146 | a query of only `id` is refused: unknown `id`, field not in the enum, value not a string |
| SlugValidator.RowsWithSlugSpec | src/modules/categories/validators/slug.validator.ts:27 | the lookup returns exactly the stored rows with that slug |
| SlugValidator.SlugIsFreeIff | src/modules/categories/validators/slug.validator.ts:21-29 | the check passes exactly when no stored row has the slug |
| SlugValidator.OwnSlugTaken | src/modules/categories/validators/slug.validator.ts:21-29 | a stored row's own slug is always taken, even on an update of that row |
| SlugValidator.SlugTakenMessageRoundTrip | src/modules/categories/validators/slug.validator.ts:31-33 | the message names the rejected slug, which can be read back from it |
| CreateCategoryDto.CheckSlugText | src/modules/categories/dto/createCategory.dto.ts:12-17 | a slug text is accepted exactly when it fits the pattern and is not taken; otherwise the first failing check is reported |
| CreateCategoryDto.ValidateCreateAccepted | src/modules/categories/dto/createCategory.dto.ts:11-28 | a body is accepted exactly when it is well formed: only declared properties, a free slug of the right form, a string name, a string or null description if any, and a boolean active; the result then carries those values |
| CreateCategoryDto.SlugRejections | src/modules/categories/dto/createCategory.dto.ts:12-17 | a slug outside the pattern gets the pattern violation; a well-formed slug already stored gets the slug-taken violation |
| CreateCategoryDto.MissingRequiredRejected | src/modules/categories/dto/createCategory.dto.ts:19-27 | a body without `name` or `active` is refused, naming what is missing |
| UpdateCategoryDto.CreatedDateRules | src/modules/categories/dto/updateCategory.dto.ts:30-33 | a number is a date exactly within the time-value range; a text exactly when it parses within range, and then it is that time; objects and null are not dates |
| UpdateCategoryDto.ValidateUpdateAccepted | src/modules/categories/dto/updateCategory.dto.ts:13-38 | a body is accepted exactly when it has only the five declared properties, each null or valid |
| UpdateCategoryDto.ValidatedUpdatePatches | src/modules/categories/dto/updateCategory.dto.ts:13-38 | in an accepted body, an absent property keeps its column, a `null` clears it, and a value sets the column to that value (`createdDate` to its converted date) |
| UpdateCategoryDto.IdNotUpdatable | src/modules/categories/dto/updateCategory.dto.ts:13-38 | a body naming `id` is always refused with an unknown-property violation |
| UpdateCategoryPipe.TransformSpec | src/modules/categories/pipes/updateCategory.pipe.ts:6-14 | the pipe refuses exactly a body that sets nothing, with its message; everything else passes unchanged |
| UpdateCategoryPipe.EmptyRequestBodyRefused | src/modules/categories/pipes/updateCategory.pipe.ts:7-11 | after validation, the pipe refuses exactly the empty JSON object |
| CategoriesService.InsertError | src/modules/categories/categories.service.ts:30-34 | an insert is refused exactly when the slug breaks the CHECK constraint, the id is already stored, or the slug is taken |
| CategoriesService.InsertKeepsInvariant | src/modules/categories/categories.service.ts:30-34 | an accepted insert keeps the table constraints |
| CategoriesService.PatchedSpec | src/modules/categories/categories.service.ts:36-38 | an update never changes the id; each column is kept, cleared or set as its patch says |
| CategoriesService.CountMatchingSpec | src/modules/categories/categories.service.ts:36-42 | the affected count is zero exactly when the id is not stored, and at most one under unique ids |
| CategoriesService.UpdateRows | src/modules/categories/categories.service.ts:36-38 | `UPDATE … WHERE id` patches exactly the rows with that id, in place, and leaves the others alone |
| CategoriesService.UpdateKeepsInvariant | src/modules/categories/categories.service.ts:36-38 | an update the database accepts keeps the table constraints |
| CategoriesService.UpdateOfAbsentId | src/modules/categories/categories.service.ts:36-38 | updating an id that is not stored changes nothing, and fails only for a body that sets nothing |
| CategoriesService.DeleteRowsSpec | src/modules/categories/categories.service.ts:40-42 | delete removes exactly the rows with that id, and as many as the affected count says |
| CategoriesService.DeleteKeepsInvariant | src/modules/categories/categories.service.ts:40-42 | a delete keeps the table constraints |
| CategoriesService.FindOneSpec | src/modules/categories/categories.service.ts:44-46 | a row is found exactly when one has the key; the found row is stored and has it, and under the constraints it is the only one |
| CategoriesService.CategoryService.CreateCategory | src/modules/categories/categories.service.ts:30-34 | appends the new row with the given id and time and returns it, or returns the refusal and changes nothing |
| CategoriesService.CategoryService.UpdateCategory | src/modules/categories/categories.service.ts:36-38 | patches the rows with the id and returns the affected count, or returns the refusal and changes nothing |
| CategoriesService.CategoryService.DeleteCategory | src/modules/categories/categories.service.ts:40-42 | removes the rows with the id and returns how many there were |
| CategoriesController.NotFoundMessagesNameTheId | src/modules/categories/categories.controller.ts:41-53 | the not-found messages differ for different ids, and the update message never equals the delete message |
| CategoriesController.CreateResponse | src/modules/categories/categories.controller.ts:29-32 | a saved row answers with its id only; a refused save is a server error |
| CategoriesController.AffectedCountMapping | src/modules/categories/categories.controller.ts:39-54 | zero affected rows is a not-found naming the id; any other count succeeds; a refused update is a server error |
| CategoriesController.ValidatedCreateIsStored | src/modules/categories/categories.controller.ts:29-31 | a body that passed validation is refused by the database only when its generated id is already stored |
| CategoriesController.ValidatedUpdateOnlyFailsOnNull | src/modules/categories/categories.controller.ts:34-39 | a validated update that sets something fails in the database only by clearing a required column |
| CategoriesController.NullNameReachesStore | src/modules/categories/dto/updateCategory.dto.ts:22-24 | `{"name": null}` passes validation and is refused by the NOT NULL constraint of a stored row |
| CategoriesController.Controller.Create | src/modules/categories/categories.controller.ts:27-32 | answers the new id and appends the row, or answers a server error and changes nothing |
| CategoriesController.Controller.Update | src/modules/categories/categories.controller.ts:34-45 | a refused update is a server error that changes nothing; otherwise the rows are patched, and the answer is success exactly when the id was stored and not-found otherwise |
| CategoriesController.Controller.Delete | src/modules/categories/categories.controller.ts:47-55 | removes the rows with the id; success exactly when the id was stored, not-found naming the id otherwise |
| CategoriesController.Controller.PostCategory | src/modules/categories/categories.controller.ts:27-32 | an invalid body returns its violations and changes nothing; a valid one is stored under the generated id, or refused when that id is taken |
| CategoriesController.Controller.PatchCategory | src/modules/categories/categories.controller.ts:34-45 | the order of refusals: violations, then an empty body, then the database; otherwise the rows are patched and the answer depends on whether the id was stored |
| CategoriesController.Controller.GetCategoriesList | src/modules/categories/categories.controller.ts:57-60 | with a page size of at least 1, at most one page of stored rows, each kept by the filter, in the requested order |
| CategoriesController.Controller.GetCategory | src/modules/categories/categories.controller.ts:62-65 | a row is returned exactly when a stored row has the requested key, and it is such a row |
| CategoriesController.Controller.ListCategories | src/modules/categories/categories.controller.ts:57-60 | a query is answered exactly when it validates, with at most nine stored rows kept by the filter in order; otherwise the answer is the filter's violations |
| CategoriesController.Controller.FindCategory | src/modules/categories/categories.controller.ts:62-65 | a refused query keeps the validator's failure; an accepted one returns a stored row with the requested key exactly when one exists, and in a valid table the only one |
| CategoriesController.ListActiveSpellings | src/modules/categories/categories.controller.ts:57-60 | listing with `active=1` answers the same as with `active=true`, and `active=0` the same as `active=false` |
| CategoriesController.ListPageSizeOutOfRange | src/modules/categories/categories.controller.ts:57-60 | listing with a numeral page size outside 1 to 9 is a validation failure that names the broken bound |
| SeedFixture.NameFilterOnSeed | test/categories.e2e-spec.ts:450-457 | `name=мед` over the seed returns `мёд`, then `Мед` |
| SeedFixture.DescriptionFilterOnSeed | test/categories.e2e-spec.ts:462-469 | `description=мед` returns the row described `Мед`, then the one described `мЁд` |
| SeedFixture.SearchOnSeed | test/categories.e2e-spec.ts:474-485 | `search=мед&pageSize=4` returns three rows, newest first |
| SeedFixture.EmptyQueryIsNoFilter | test/categories.e2e-spec.ts:399-400 | an empty query validates to the default filter |
| SeedFixture.DefaultListOnSeed | test/categories.e2e-spec.ts:399-411 | with no parameters, the two newest seed rows come back, newest first |
| SeedFixture.NewestFirstSeed | src/seed/data/categories.ts:3-35 | the default order of the seed is by creation time, newest first |

## Left out

- **Framework wiring:** routing, dependency injection, the HTTP status codes, and the
  application bootstrap. Only the result each handler produces is modelled.
- **Database plumbing:** connections, migrations and the seeding script. The migration's
  constraints are stated as the table invariant. The seed rows are a fixture.
- **Pattern syntax in search terms:** regular-expression metacharacters other than `е`
  and `ё` are treated as literal letters. The regular-expression engine is not modelled.
- **Case folding:** covers ASCII and the basic Cyrillic alphabet only. There is no
  Unicode normalisation and no collation.
- **Numbers:** `Number(...)` is modelled on decimal naturals only. The model rejects a
  sign, a hex literal, an exponent or a fraction as not a number: `ToNumber` gives `None`,
  so the parameter gets a not-a-number violation. The source does otherwise. It accepts
  `pageSize=0x3` and `pageSize=1e0` as 3 and 1. It gives `pageSize=-1` the minimum
  violation. It lets `page=-1` through, which yields a negative offset. `Math.round` of a
  product of naturals is the product itself.
- **The slug pattern and its message:** the pattern and the slug message text come from
  a constants module that is not part of this model. The pattern is a parameter. The
  message is an opaque failure.
- **Date parsing:** text dates in `createdDate` go through the parameter `parseDate`.
  The ISO date grammar is not modelled.
- **Generated values:** the database generates the id and the creation time. The model
  takes them as inputs.
- **The uuid route parameter:** `ParseUUIDPipe` on the update and delete routes is not
  modelled. The ids handed to `Update` and `Delete` are arbitrary strings.
- **Array query parameters:** a repeated query key, parsed into an array, is not
  modelled. Every query value is a single string.
- **Concurrency:** the slug check and the insert are not atomic in the source. The model
  performs each request alone, one after another.
- **Ties in sorting:** only sortedness and permutation are claimed for rows that tie on
  the sort key. The database's order among equal keys is not modelled.
- **Violation order:** violations are a set, so the order of messages in a response is
  left out.
- **Update error precedence:** the order in which the database reports a broken
  constraint on update is fixed in the model: no values, then NOT NULL, then CHECK, then
  UNIQUE. PostgreSQL may report them in another order, but every order gives the same
  server error.
- **Text timestamps:** timestamps are whole milliseconds since the epoch. Time zones and
  sub-millisecond precision are not modelled.
