/**
 * `CategoriesService.find`: the list query. The sort parameter picks an ordering, the
 * text parameters become anchored case-insensitive patterns, `active` an equality, and
 * `page`/`pageSize` an OFFSET/LIMIT window. The query runs as SQL does: WHERE, then
 * ORDER BY, then OFFSET and LIMIT.
 */
module CategoryQuery {
  import opened Outcomes
  import opened Text
  import opened CategoryEntity
  import opened SearchPattern
  import opened RequestValues
  import opened FilterCategoriesDto
  import opened Sorting

  // ---- sort parsing ----

  datatype SortField = Active | CreatedDate | Name | Description
  datatype SortDirection = Asc | Desc
  datatype SortSpec = SortSpec(field: SortField, direction: SortDirection)

  /** The string value of each `SortField` enum member. */
  function FieldName(f: SortField): string {
    match f
    case Active => "active"
    case CreatedDate => "createdDate"
    case Name => "name"
    case Description => "description"
  }

  /** `Object.values(SortField).includes(s)`, returning the member. */
  function FieldNamed(s: string): Option<SortField> {
    if s == "active" then Some(Active)
    else if s == "createdDate" then Some(CreatedDate)
    else if s == "name" then Some(Name)
    else if s == "description" then Some(Description)
    else None
  }

  lemma FieldNamedIff(s: string, f: SortField)
    ensures FieldNamed(s) == Some(f) <==> s == FieldName(f)
  {
  }

  const DefaultSort: SortSpec := SortSpec(CreatedDate, Desc)

  /** JavaScript truthiness of an optional string: present and not empty. */
  predicate Truthy(s: Option<string>) {
    s.Some? && s.value != ""
  }

  function ParseSort(sort: Option<string>): SortSpec {
    if Truthy(sort) && sort.value[0] == '-' && FieldNamed(sort.value[1..]).Some? then
      SortSpec(FieldNamed(sort.value[1..]).value, Desc)
    else if Truthy(sort) && FieldNamed(sort.value).Some? then
      SortSpec(FieldNamed(sort.value).value, Asc)
    else
      DefaultSort
  }

  /** A bare field name sorts ascending by that field. */
  lemma ParseSortAscending(f: SortField)
    ensures ParseSort(Some(FieldName(f))) == SortSpec(f, Asc)
  {
    FieldNamedIff(FieldName(f), f);
  }

  /** A field name after `-` sorts descending by that field. */
  lemma ParseSortDescending(f: SortField)
    ensures ParseSort(Some("-" + FieldName(f))) == SortSpec(f, Desc)
  {
    var s := "-" + FieldName(f);
    assert s[1..] == FieldName(f);
    FieldNamedIff(FieldName(f), f);
  }

  /** A parsed sort is the default, or it was asked for by a bare or a `-` prefixed field name. */
  lemma ParseSortCases(sort: Option<string>)
    ensures || ParseSort(sort) == DefaultSort
            || (ParseSort(sort).direction == Asc && sort == Some(FieldName(ParseSort(sort).field)))
            || (ParseSort(sort).direction == Desc && sort == Some("-" + FieldName(ParseSort(sort).field)))
  {
    if Truthy(sort) {
      var s := sort.value;
      if s[0] == '-' && FieldNamed(s[1..]).Some? {
        FieldNamedIff(s[1..], FieldNamed(s[1..]).value);
        assert s == [s[0]] + s[1..];
      } else if FieldNamed(s).Some? {
        FieldNamedIff(s, FieldNamed(s).value);
      }
    }
  }

  /** Everything else, the empty string included, gives `createdDate` descending. */
  lemma ParseSortFallback(sort: Option<string>)
    requires forall f :: sort != Some(FieldName(f)) && sort != Some("-" + FieldName(f))
    ensures ParseSort(sort) == DefaultSort
  {
    ParseSortCases(sort);
  }

  // ---- pagination ----

  /** `page && pageSize ? (page - 1) * pageSize : undefined`. */
  function Offset(page: Option<nat>, pageSize: Option<nat>): (r: Option<nat>)
    ensures r.Some? <==> page.Some? && page.value != 0 && pageSize.Some? && pageSize.value != 0
  {
    if page.Some? && page.value != 0 && pageSize.Some? && pageSize.value != 0 then
      Some((page.value - 1) * pageSize.value)
    else
      None
  }

  // ---- WHERE ----

  /** One `andWhere` condition of the query builder. */
  datatype Condition =
    | NameOrDescriptionMatches(regex: Pattern)  // `name ~* :regex OR description ~* :regex`
    | NameMatches(regex: Pattern)               // `name ~* :regex`
    | DescriptionMatches(regex: Pattern)        // `description ~* :regex`
    | ActiveEquals(active: bool)                // `active = :active`

  /** The conditions `find` adds, in order. */
  function Conditions(f: FilterCategories): seq<Condition> {
    var text :=
      if Truthy(f.search) then [NameOrDescriptionMatches(GetRegexp(f.search.value))]
      else
        (if Truthy(f.name) then [NameMatches(GetRegexp(f.name.value))] else []) +
        (if Truthy(f.description) then [DescriptionMatches(GetRegexp(f.description.value))] else []);
    text + (if f.active.Some? then [ActiveEquals(f.active.value)] else [])
  }

  /** A NULL column never matches a pattern. */
  predicate NullableMatches(p: Pattern, v: Option<string>) {
    v.Some? && MatchesAnchored(p, v.value)
  }

  predicate Holds(c: Condition, row: Category) {
    match c
    case NameOrDescriptionMatches(p) => MatchesAnchored(p, row.name) || NullableMatches(p, row.description)
    case NameMatches(p) => MatchesAnchored(p, row.name)
    case DescriptionMatches(p) => NullableMatches(p, row.description)
    case ActiveEquals(b) => row.active == b
  }

  predicate HoldsAll(cs: seq<Condition>, row: Category) {
    forall i :: 0 <= i < |cs| ==> Holds(cs[i], row)
  }

  /** The rows that satisfy every condition, in store order. */
  function Select(rows: seq<Category>, cs: seq<Condition>): seq<Category>
    decreases |rows|
  {
    if rows == [] then []
    else if HoldsAll(cs, rows[0]) then [rows[0]] + Select(rows[1..], cs)
    else Select(rows[1..], cs)
  }

  /** `Select` keeps exactly the rows satisfying every condition, each at most as often as in the table. */
  lemma {:induction false} SelectSpec(rows: seq<Category>, cs: seq<Condition>)
    ensures forall x :: x in Select(rows, cs) <==> x in rows && HoldsAll(cs, x)
    ensures multiset(Select(rows, cs)) <= multiset(rows)
    ensures |Select(rows, cs)| <= |rows|
    decreases |rows|
  {
    if rows != [] {
      SelectSpec(rows[1..], cs);
      assert rows == [rows[0]] + rows[1..];
    }
  }

  /**
   * The meaning of the filter parameters for one row: a non-empty `search` must match
   * the name or the description and `name`/`description` are then ignored; otherwise
   * each non-empty one of those must match its own column; a given `active` must equal
   * the row's flag.
   */
  predicate Keeps(f: FilterCategories, x: Category) {
    && (if Truthy(f.search) then
          StartsWithTerm(x.name, f.search.value) ||
          (x.description.Some? && StartsWithTerm(x.description.value, f.search.value))
        else
          && (Truthy(f.name) ==> StartsWithTerm(x.name, f.name.value))
          && (Truthy(f.description) ==>
                x.description.Some? && StartsWithTerm(x.description.value, f.description.value)))
    && (f.active.Some? ==> x.active == f.active.value)
  }

  lemma HoldsAllSingleton(c: Condition, x: Category)
    ensures HoldsAll([c], x) <==> Holds(c, x)
  {
    assert [c][0] == c;
  }

  lemma HoldsAllAppend(a: seq<Condition>, b: seq<Condition>, x: Category)
    ensures HoldsAll(a + b, x) <==> HoldsAll(a, x) && HoldsAll(b, x)
  {
    if HoldsAll(a, x) && HoldsAll(b, x) {
      forall i | 0 <= i < |a + b| ensures Holds((a + b)[i], x) {
        if i >= |a| {
          assert (a + b)[i] == b[i - |a|];
        }
      }
    }
    if HoldsAll(a + b, x) {
      forall i | 0 <= i < |a| ensures Holds(a[i], x) {
        assert (a + b)[i] == a[i];
      }
      forall i | 0 <= i < |b| ensures Holds(b[i], x) {
        assert (a + b)[|a| + i] == b[i];
      }
    }
  }

  /** The conditions the query builder adds select exactly the rows `Keeps` describes. */
  lemma ConditionsMeanKeeps(f: FilterCategories, x: Category)
    ensures HoldsAll(Conditions(f), x) <==> Keeps(f, x)
  {
    var activePart := if f.active.Some? then [ActiveEquals(f.active.value)] else [];
    if Truthy(f.search) {
      var p := GetRegexp(f.search.value);
      HoldsAllAppend([NameOrDescriptionMatches(p)], activePart, x);
      HoldsAllSingleton(NameOrDescriptionMatches(p), x);
      if f.active.Some? {
        HoldsAllSingleton(ActiveEquals(f.active.value), x);
      }
      RegexMatchesIff(x.name, f.search.value);
      if x.description.Some? {
        RegexMatchesIff(x.description.value, f.search.value);
      }
    } else {
      var namePart := if Truthy(f.name) then [NameMatches(GetRegexp(f.name.value))] else [];
      var descPart := if Truthy(f.description) then [DescriptionMatches(GetRegexp(f.description.value))] else [];
      HoldsAllAppend(namePart + descPart, activePart, x);
      HoldsAllAppend(namePart, descPart, x);
      if f.active.Some? {
        HoldsAllSingleton(ActiveEquals(f.active.value), x);
      }
      if Truthy(f.name) {
        HoldsAllSingleton(NameMatches(GetRegexp(f.name.value)), x);
        RegexMatchesIff(x.name, f.name.value);
      }
      if Truthy(f.description) {
        HoldsAllSingleton(DescriptionMatches(GetRegexp(f.description.value)), x);
        if x.description.Some? {
          RegexMatchesIff(x.description.value, f.description.value);
        }
      }
    }
  }

  // ---- ORDER BY ----

  /** Code-point lexicographic order on strings (the database collation is not modelled). */
  predicate LexLe(a: string, b: string)
    decreases |a|
  {
    a == [] || (b != [] && (a[0] < b[0] || (a[0] == b[0] && LexLe(a[1..], b[1..]))))
  }

  lemma {:induction false} LexLeTotal(a: string, b: string)
    ensures LexLe(a, b) || LexLe(b, a)
    decreases |a|
  {
    if a != [] && b != [] && a[0] == b[0] {
      LexLeTotal(a[1..], b[1..]);
    }
  }

  lemma {:induction false} LexLeTransitive(a: string, b: string, c: string)
    requires LexLe(a, b) && LexLe(b, c)
    ensures LexLe(a, c)
    decreases |a|
  {
    if a != [] && a[0] == b[0] && b[0] == c[0] {
      LexLeTransitive(a[1..], b[1..], c[1..]);
    }
  }

  /** Ascending order with NULL last, PostgreSQL's default for a nullable column. */
  predicate NullsLastLe(a: Option<string>, b: Option<string>) {
    match a
    case None => b.None?
    case Some(x) => b.None? || LexLe(x, b.value)
  }

  /** Ascending order of two rows by one column (`false` before `true` for `active`). */
  predicate KeyLe(f: SortField, a: Category, b: Category) {
    match f
    case Active => !a.active || b.active
    case CreatedDate => a.createdDate <= b.createdDate
    case Name => LexLe(a.name, b.name)
    case Description => NullsLastLe(a.description, b.description)
  }

  predicate InOrder(spec: SortSpec, a: Category, b: Category) {
    if spec.direction == Asc then KeyLe(spec.field, a, b) else KeyLe(spec.field, b, a)
  }

  lemma InOrderTotal(spec: SortSpec, a: Category, b: Category)
    ensures InOrder(spec, a, b) || InOrder(spec, b, a)
  {
    match spec.field
    case Name => LexLeTotal(a.name, b.name);
    case Description =>
      if a.description.Some? && b.description.Some? {
        LexLeTotal(a.description.value, b.description.value);
      }
    case _ =>
  }

  lemma InOrderTransitive(spec: SortSpec, a: Category, b: Category, c: Category)
    requires InOrder(spec, a, b) && InOrder(spec, b, c)
    ensures InOrder(spec, a, c)
  {
    var x, z := if spec.direction == Asc then a else c, if spec.direction == Asc then c else a;
    match spec.field
    case Name => LexLeTransitive(x.name, b.name, z.name);
    case Description =>
      if x.description.Some? && b.description.Some? && z.description.Some? {
        LexLeTransitive(x.description.value, b.description.value, z.description.value);
      }
    case _ =>
  }

  /** The order the parsed sort spec asks for, as a relation. */
  function Before(spec: SortSpec): (Category, Category) -> bool {
    (a: Category, b: Category) => InOrder(spec, a, b)
  }

  lemma BeforeIsTotalPreorder(spec: SortSpec)
    ensures TotalPreorder(Before(spec))
  {
    forall a, b ensures InOrder(spec, a, b) || InOrder(spec, b, a) {
      InOrderTotal(spec, a, b);
    }
    forall a, b, c | InOrder(spec, a, b) && InOrder(spec, b, c) ensures InOrder(spec, a, c) {
      InOrderTransitive(spec, a, b, c);
    }
  }

  ghost predicate SortedBy(s: seq<Category>, spec: SortSpec) {
    Sorted(s, Before(spec))
  }

  /** ORDER BY: a sort by the parsed key; equal keys keep the store's order. */
  function SortRows(rows: seq<Category>, spec: SortSpec): seq<Category> {
    InsertionSort(rows, Before(spec))
  }

  /** The ordered rows are a permutation of the input, sorted by the key. */
  lemma SortRowsSpec(rows: seq<Category>, spec: SortSpec)
    ensures multiset(SortRows(rows, spec)) == multiset(rows)
    ensures SortedBy(SortRows(rows, spec), spec)
  {
    BeforeIsTotalPreorder(spec);
    InsertionSortSpec(rows, Before(spec));
  }

  // ---- OFFSET / LIMIT and the whole query ----

  /** Where the window starts: the offset, clipped to the length; no offset starts at 0. */
  function WindowStart(n: nat, offset: Option<nat>): (lo: nat)
    ensures lo <= n
  {
    if offset.None? then 0 else if offset.value < n then offset.value else n
  }

  /** Where the window ends: `limit` rows after the start, clipped; a zero or absent limit takes the rest. */
  function WindowEnd(n: nat, lo: nat, limit: Option<nat>): (hi: nat)
    requires lo <= n
    ensures lo <= hi <= n
  {
    if limit.Some? && limit.value != 0 && lo + limit.value < n then lo + limit.value else n
  }

  /** `offset(o).limit(l)`: a zero or absent value adds no clause. */
  function Window(s: seq<Category>, offset: Option<nat>, limit: Option<nat>): (r: seq<Category>)
    ensures limit.Some? && limit.value != 0 ==> |r| <= limit.value
  {
    var lo := WindowStart(|s|, offset);
    s[lo..WindowEnd(|s|, lo, limit)]
  }

  lemma WindowSubset(s: seq<Category>, offset: Option<nat>, limit: Option<nat>)
    ensures forall x :: x in Window(s, offset, limit) ==> x in s
  {
  }

  /** What the query builder holds when `getMany` runs. */
  datatype Query = Query(where: seq<Condition>, orderBy: SortSpec, offset: Option<nat>, limit: Option<nat>)

  function BuildQuery(f: FilterCategories): Query {
    Query(Conditions(f), ParseSort(f.sort), Offset(f.page, f.pageSize), f.pageSize)
  }

  function Run(rows: seq<Category>, q: Query): seq<Category> {
    Window(SortRows(Select(rows, q.where), q.orderBy), q.offset, q.limit)
  }

  /** `find(filter)` over the table contents `rows`. */
  function Find(rows: seq<Category>, f: FilterCategories): seq<Category> {
    Run(rows, BuildQuery(f))
  }

  /** The kept rows in the chosen order, before the window is cut out. */
  function Ordered(rows: seq<Category>, f: FilterCategories): seq<Category> {
    SortRows(Select(rows, Conditions(f)), ParseSort(f.sort))
  }

  /** `Ordered` holds exactly the kept rows of the table, each as often as in the table, sorted by the parsed key. */
  lemma OrderedSpec(rows: seq<Category>, f: FilterCategories)
    ensures forall x :: x in Ordered(rows, f) <==> x in rows && Keeps(f, x)
    ensures multiset(Ordered(rows, f)) <= multiset(rows)
    ensures |Ordered(rows, f)| <= |rows|
    ensures SortedBy(Ordered(rows, f), ParseSort(f.sort))
  {
    forall x ensures HoldsAll(Conditions(f), x) <==> Keeps(f, x) {
      ConditionsMeanKeeps(f, x);
    }
    var sel := Select(rows, Conditions(f));
    SelectSpec(rows, Conditions(f));
    SortRowsSpec(sel, ParseSort(f.sort));
    assert forall x :: x in Ordered(rows, f) <==> x in multiset(sel);
  }

  lemma FindUnfold(rows: seq<Category>, f: FilterCategories)
    ensures Find(rows, f) == Window(Ordered(rows, f), Offset(f.page, f.pageSize), f.pageSize)
  {
  }

  /** The first row of page `page` (counting from 1) when a page holds `pageSize` rows; an absent or zero page starts at 0. */
  function PageStart(page: Option<nat>, pageSize: nat): nat {
    if page.Some? && page.value != 0 then (page.value - 1) * pageSize else 0
  }

  lemma WindowOfPage(o: seq<Category>, page: Option<nat>, pageSize: nat)
    requires pageSize >= 1
    ensures var lo := if PageStart(page, pageSize) < |o| then PageStart(page, pageSize) else |o|;
      var hi := if lo + pageSize < |o| then lo + pageSize else |o|;
      Window(o, Offset(page, Some(pageSize)), Some(pageSize)) == o[lo..hi]
  {
  }

  /**
   * The result is the window `[offset, offset + pageSize)` of the ordered kept rows,
   * where the offset is `(page - 1) * pageSize` for a non-zero page and 0 otherwise.
   */
  lemma FindIsWindow(rows: seq<Category>, f: FilterCategories)
    requires f.pageSize.Some? && f.pageSize.value >= 1
    ensures var o := Ordered(rows, f);
      var lo := if PageStart(f.page, f.pageSize.value) < |o| then PageStart(f.page, f.pageSize.value) else |o|;
      var hi := if lo + f.pageSize.value < |o| then lo + f.pageSize.value else |o|;
      Find(rows, f) == o[lo..hi]
  {
    FindUnfold(rows, f);
    WindowOfPage(Ordered(rows, f), f.page, f.pageSize.value);
  }

  /** The rows returned: at most `pageSize` of them, each a table row that passes every filter, in the parsed order. */
  lemma FindSpec(rows: seq<Category>, f: FilterCategories)
    requires f.pageSize.Some? && f.pageSize.value >= 1
    ensures |Find(rows, f)| <= f.pageSize.value
    ensures forall x :: x in Find(rows, f) ==> x in rows && Keeps(f, x)
    ensures SortedBy(Find(rows, f), ParseSort(f.sort))
  {
    OrderedSpec(rows, f);
    FindUnfold(rows, f);
    var o := Ordered(rows, f);
    WindowSubset(o, Offset(f.page, f.pageSize), f.pageSize);
    var lo := WindowStart(|o|, Offset(f.page, f.pageSize));
    var r := Find(rows, f);
    assert r == o[lo..WindowEnd(|o|, lo, f.pageSize)];
    forall i, j | 0 <= i < j < |r| ensures Before(ParseSort(f.sort))(r[i], r[j]) {
      assert r[i] == o[lo + i] && r[j] == o[lo + j];
    }
  }

  /** With one page covering the whole table, every kept row is returned. */
  lemma FindComplete(rows: seq<Category>, f: FilterCategories, x: Category)
    requires f.pageSize.Some? && |rows| <= f.pageSize.value
    requires f.page.None? || f.page.value <= 1
    requires x in rows && Keeps(f, x)
    ensures x in Find(rows, f)
  {
    OrderedSpec(rows, f);
    FindUnfold(rows, f);
    var o := Ordered(rows, f);
    assert WindowStart(|o|, Offset(f.page, f.pageSize)) == 0;
    assert Find(rows, f) == o[0..|o|];
    assert o[0..|o|] == o;
  }

  /** Page 1 starts at offset 0 and an absent or zero page adds no offset: all three return the same rows. */
  lemma FirstPageForms(rows: seq<Category>, f: FilterCategories)
    ensures Find(rows, f.(page := Some(0))) == Find(rows, f.(page := Some(1)))
    ensures Find(rows, f.(page := None)) == Find(rows, f.(page := Some(1)))
  {
    var o := Ordered(rows, f);
    FindUnfold(rows, f.(page := Some(0)));
    FindUnfold(rows, f.(page := Some(1)));
    FindUnfold(rows, f.(page := None));
    assert Ordered(rows, f.(page := Some(0))) == o;
    assert Ordered(rows, f.(page := Some(1))) == o;
    assert Ordered(rows, f.(page := None)) == o;
    assert WindowStart(|o|, Offset(Some(1), f.pageSize)) == 0;
  }

  /** A non-empty `search` makes the `name` and `description` parameters irrelevant. */
  lemma SearchOverridesNameAndDescription(rows: seq<Category>, f: FilterCategories, name: Option<string>, description: Option<string>)
    requires Truthy(f.search)
    ensures Find(rows, f) == Find(rows, f.(name := name, description := description))
  {
  }

  /** With `active` given, every returned row has that flag. */
  lemma ActiveFilterRestricts(rows: seq<Category>, f: FilterCategories)
    requires f.active.Some? && f.pageSize.Some? && f.pageSize.value >= 1
    ensures forall x :: x in Find(rows, f) ==> x.active == f.active.value
  {
    FindSpec(rows, f);
  }

  /**
   * A text parameter made only of white space is trimmed to the empty string and acts
   * as if it were absent; for `sort` it falls back to the default order.
   */
  lemma WhitespaceParamActsAbsent(rows: seq<Category>, q: QueryParams, key: string)
    requires key in {"name", "description", "search", "sort"}
    requires key in q && AllWhitespace(q[key])
    ensures ValidateFilter(q).Ok? <==> ValidateFilter(q - {key}).Ok?
    ensures ValidateFilter(q).Ok? ==>
      Find(rows, ValidateFilter(q).value) == Find(rows, ValidateFilter(q - {key}).value)
  {
    BlankParamDropped(q, key);
    if ValidateFilter(q).Ok? {
      var f, f' := ValidateFilter(q).value, ValidateFilter(q - {key}).value;
      if key == "sort" {
        assert ParseSort(f.sort) == ParseSort(f'.sort);
      } else {
        assert Conditions(f) == Conditions(f');
      }
      assert BuildQuery(f) == BuildQuery(f');
    }
  }

  /** Validation turns a blank text parameter into an absent one and leaves the rest of the filter as it is. */
  lemma BlankParamDropped(q: QueryParams, key: string)
    requires key in {"name", "description", "search", "sort"}
    requires key in q && AllWhitespace(q[key])
    ensures ValidateFilter(q).Ok? <==> ValidateFilter(q - {key}).Ok?
    ensures ValidateFilter(q).Ok? ==>
      var f, f' := ValidateFilter(q).value, ValidateFilter(q - {key}).value;
      && (key == "name" ==> f.name == Some("") && f' == f.(name := None))
      && (key == "description" ==> f.description == Some("") && f' == f.(description := None))
      && (key == "search" ==> f.search == Some("") && f' == f.(search := None))
      && (key == "sort" ==> f.sort == Some("") && f' == f.(sort := None))
  {
    TrimEmptyIff(q[key]);
    var q' := q - {key};
    assert Lookup(q', "active") == Lookup(q, "active");
    assert Lookup(q', "pageSize") == Lookup(q, "pageSize");
    assert Lookup(q', "page") == Lookup(q, "page");
    assert UnknownProperties(q', FilterProperties) == UnknownProperties(q, FilterProperties);
    assert TrimParam(Lookup(q, key)) == Some("");
  }
}
