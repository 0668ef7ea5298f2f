/**
 * `CategoriesService` together with the `categories` table it writes through the ORM.
 * The table keeps the database's constraints as an invariant: unique ids (a `uuid`
 * primary key), unique slugs, every slug fitting the slug pattern (a CHECK
 * constraint), and the NOT NULL columns. The database's generated values, the new id
 * and the creation time, are arguments. A write the constraints refuse leaves the table
 * as it was and reports why.
 */
module CategoriesService {
  import opened Outcomes
  import opened Uuid
  import opened CategoryEntity
  import opened FilterCategoriesDto
  import opened CategoryQuery
  import opened GetCategoryDto
  import opened CreateCategoryDto
  import opened UpdateCategoryDto

  /** Why the database refuses a write. */
  datatype StoreError =
    | SlugCheckFailed       // the CHECK constraint on `slug`
    | DuplicateId           // the primary key
    | SlugNotUnique         // the UNIQUE constraint on `slug`
    | NullInRequiredColumn  // a NOT NULL column set to null
    | NoValuesToUpdate      // the ORM refuses an update that sets nothing

  ghost predicate TableInvariant(rows: seq<Category>, slugPattern: string -> bool) {
    && UniqueIds(rows)
    && UniqueSlugs(rows)
    && forall i :: 0 <= i < |rows| ==> slugPattern(rows[i].slug)
  }

  // ---- create ----

  /** `repository.create(data)` saved with the generated id and creation time. */
  function NewRow(data: CreateCategory, id: string, now: Timestamp): Category {
    Category(id, data.slug, data.name, data.description, now, data.active)
  }

  function InsertError(rows: seq<Category>, row: Category, slugPattern: string -> bool): (r: Option<StoreError>)
    ensures r.None? <==> slugPattern(row.slug) && !HasId(rows, row.id) && !HasSlug(rows, row.slug)
  {
    if !slugPattern(row.slug) then Some(SlugCheckFailed)
    else if HasId(rows, row.id) then Some(DuplicateId)
    else if HasSlug(rows, row.slug) then Some(SlugNotUnique)
    else None
  }

  /** A row the constraints accept can be appended without breaking them. */
  lemma InsertKeepsInvariant(rows: seq<Category>, row: Category, slugPattern: string -> bool)
    requires TableInvariant(rows, slugPattern) && InsertError(rows, row, slugPattern).None?
    ensures TableInvariant(rows + [row], slugPattern)
  {
    var r := rows + [row];
    forall i, j | 0 <= i < j < |r| ensures !SameUuid(r[i].id, r[j].id) && r[i].slug != r[j].slug {
      if j == |rows| {
        assert r[i] == rows[i];
      }
    }
  }

  // ---- update ----

  function PatchValue<T>(p: Patch<T>, current: T): T {
    match p
    case Set(v) => v
    case _ => current
  }

  function PatchNullable<T>(p: Patch<T>, current: Option<T>): Option<T> {
    match p
    case Keep => current
    case SetNull => None
    case Set(v) => Some(v)
  }

  /** One row after `SET` of the payload's columns; a null for a NOT NULL column never gets this far. */
  function Patched(x: Category, u: UpdateCategory): Category {
    Category(
      x.id,
      PatchValue(u.slug, x.slug),
      PatchValue(u.name, x.name),
      PatchNullable(u.description, x.description),
      PatchValue(u.createdDate, x.createdDate),
      PatchValue(u.active, x.active))
  }

  /** The id stays; each column changes exactly when the payload sets it. */
  lemma PatchedSpec(x: Category, u: UpdateCategory)
    ensures Patched(x, u).id == x.id
    ensures u.slug.Keep? ==> Patched(x, u).slug == x.slug
    ensures u.slug.Set? ==> Patched(x, u).slug == u.slug.value
    ensures u.name.Keep? ==> Patched(x, u).name == x.name
    ensures u.name.Set? ==> Patched(x, u).name == u.name.value
    ensures u.description.Keep? ==> Patched(x, u).description == x.description
    ensures u.description.SetNull? ==> Patched(x, u).description == None
    ensures u.description.Set? ==> Patched(x, u).description == Some(u.description.value)
    ensures u.createdDate.Keep? ==> Patched(x, u).createdDate == x.createdDate
    ensures u.createdDate.Set? ==> Patched(x, u).createdDate == u.createdDate.value
    ensures u.active.Keep? ==> Patched(x, u).active == x.active
    ensures u.active.Set? ==> Patched(x, u).active == u.active.value
  {
  }

  const NoChange: UpdateCategory := UpdateCategory(Keep, Keep, Keep, Keep, Keep)

  predicate ClearsRequired(u: UpdateCategory) {
    u.slug.SetNull? || u.name.SetNull? || u.createdDate.SetNull? || u.active.SetNull?
  }

  /** The number of rows whose id is the given `uuid`. */
  function CountMatching(rows: seq<Category>, id: string): nat
    decreases |rows|
  {
    if rows == [] then 0
    else (if SameUuid(rows[0].id, id) then 1 else 0) + CountMatching(rows[1..], id)
  }

  /** No row matches exactly when the id is absent; with unique ids at most one row matches. */
  lemma {:induction false} CountMatchingSpec(rows: seq<Category>, id: string)
    ensures CountMatching(rows, id) == 0 <==> !HasId(rows, id)
    ensures UniqueIds(rows) ==> CountMatching(rows, id) <= 1
    decreases |rows|
  {
    if rows != [] {
      CountMatchingSpec(rows[1..], id);
      assert forall i :: 1 <= i < |rows| ==> rows[1..][i - 1] == rows[i];
      if HasId(rows, id) && !SameUuid(rows[0].id, id) {
        var i :| 0 <= i < |rows| && SameUuid(rows[i].id, id);
        assert SameUuid(rows[1..][i - 1].id, id);
      }
      if UniqueIds(rows) && SameUuid(rows[0].id, id) {
        forall i | 0 <= i < |rows[1..]| ensures !SameUuid(rows[1..][i].id, id) {
          assert rows[1..][i] == rows[i + 1];
        }
      }
    }
  }

  /** `UPDATE categories SET … WHERE id = :id`. */
  function UpdateRows(rows: seq<Category>, id: string, u: UpdateCategory): (r: seq<Category>)
    ensures |r| == |rows|
    ensures forall i :: 0 <= i < |rows| ==> r[i] == if SameUuid(rows[i].id, id) then Patched(rows[i], u) else rows[i]
  {
    seq(|rows|, i requires 0 <= i < |rows| => if SameUuid(rows[i].id, id) then Patched(rows[i], u) else rows[i])
  }

  /** Whether any row other than the ones being updated already has the slug. */
  predicate SlugHeldElsewhere(rows: seq<Category>, id: string, slug: string) {
    exists j :: 0 <= j < |rows| && !SameUuid(rows[j].id, id) && rows[j].slug == slug
  }

  /** The constraint an update breaks, checked only when a row is actually written. */
  function UpdateError(rows: seq<Category>, id: string, u: UpdateCategory, slugPattern: string -> bool): Option<StoreError> {
    if u == NoChange then Some(NoValuesToUpdate)
    else if CountMatching(rows, id) == 0 then None
    else if ClearsRequired(u) then Some(NullInRequiredColumn)
    else if u.slug.Set? && !slugPattern(u.slug.value) then Some(SlugCheckFailed)
    else if u.slug.Set? && SlugHeldElsewhere(rows, id, u.slug.value) then Some(SlugNotUnique)
    else None
  }

  /** An update the constraints accept keeps them. */
  lemma UpdateKeepsInvariant(rows: seq<Category>, id: string, u: UpdateCategory, slugPattern: string -> bool)
    requires TableInvariant(rows, slugPattern) && UpdateError(rows, id, u, slugPattern).None?
    ensures TableInvariant(UpdateRows(rows, id, u), slugPattern)
  {
    var r := UpdateRows(rows, id, u);
    CountMatchingSpec(rows, id);
    if CountMatching(rows, id) == 0 {
      assert r == rows;
    } else {
      forall i, j | 0 <= i < j < |r| ensures !SameUuid(r[i].id, r[j].id) && r[i].slug != r[j].slug {
        if SameUuid(rows[i].id, id) && u.slug.Set? {
          assert !SlugHeldElsewhere(rows, id, u.slug.value);
          assert !(!SameUuid(rows[j].id, id) && rows[j].slug == u.slug.value);
        } else if SameUuid(rows[j].id, id) && u.slug.Set? {
          assert !SlugHeldElsewhere(rows, id, u.slug.value);
          assert !(!SameUuid(rows[i].id, id) && rows[i].slug == u.slug.value);
        }
      }
    }
  }

  /** An update of an id that is not stored writes nothing and fails only for an empty payload. */
  lemma UpdateOfAbsentId(rows: seq<Category>, id: string, u: UpdateCategory, slugPattern: string -> bool)
    requires !HasId(rows, id)
    ensures UpdateRows(rows, id, u) == rows
    ensures UpdateError(rows, id, u, slugPattern).Some? <==> u == NoChange
  {
    CountMatchingSpec(rows, id);
  }

  // ---- delete ----

  /** `DELETE FROM categories WHERE id = :id`, keeping the other rows in order. */
  function DeleteRows(rows: seq<Category>, id: string): seq<Category>
    decreases |rows|
  {
    if rows == [] then []
    else if SameUuid(rows[0].id, id) then DeleteRows(rows[1..], id)
    else [rows[0]] + DeleteRows(rows[1..], id)
  }

  /** Exactly the matching rows go; as many as the affected count says. */
  lemma {:induction false} DeleteRowsSpec(rows: seq<Category>, id: string)
    ensures forall x :: x in DeleteRows(rows, id) <==> x in rows && !SameUuid(x.id, id)
    ensures |DeleteRows(rows, id)| + CountMatching(rows, id) == |rows|
    ensures multiset(DeleteRows(rows, id)) <= multiset(rows)
    decreases |rows|
  {
    if rows != [] {
      DeleteRowsSpec(rows[1..], id);
      assert rows == [rows[0]] + rows[1..];
    }
  }

  /** Deleting keeps the constraints: what remains is part of what was there. */
  lemma {:induction false} DeleteKeepsInvariant(rows: seq<Category>, id: string, slugPattern: string -> bool)
    requires TableInvariant(rows, slugPattern)
    ensures TableInvariant(DeleteRows(rows, id), slugPattern)
    decreases |rows|
  {
    if rows != [] {
      var tail := rows[1..];
      assert forall i :: 0 <= i < |tail| ==> tail[i] == rows[i + 1];
      DeleteKeepsInvariant(tail, id, slugPattern);
      if !SameUuid(rows[0].id, id) {
        var d := DeleteRows(tail, id);
        DeleteRowsSpec(tail, id);
        forall x | x in d ensures !SameUuid(rows[0].id, x.id) && rows[0].slug != x.slug {
          var k :| 0 <= k < |tail| && tail[k] == x;
          assert rows[k + 1] == x;
        }
        ConsKeepsInvariant(rows[0], d, slugPattern);
      }
    }
  }

  /** A row that clashes with none of a valid table's rows can go in front of it. */
  lemma ConsKeepsInvariant(c: Category, d: seq<Category>, slugPattern: string -> bool)
    requires TableInvariant(d, slugPattern) && slugPattern(c.slug)
    requires forall x | x in d :: !SameUuid(c.id, x.id) && c.slug != x.slug
    ensures TableInvariant([c] + d, slugPattern)
  {
    var r := [c] + d;
    forall i, j | 0 <= i < j < |r| ensures !SameUuid(r[i].id, r[j].id) && r[i].slug != r[j].slug {
      assert r[j] == d[j - 1];
      if i > 0 {
        assert r[i] == d[i - 1];
      }
    }
    forall i | 0 <= i < |r| ensures slugPattern(r[i].slug) {
      if i > 0 {
        assert r[i] == d[i - 1];
      }
    }
  }

  // ---- findOne ----

  /** `findOne({ where: { [field]: value } })`: the first stored row with that key. */
  function FindOneIn(rows: seq<Category>, g: GetCategory): Option<Category>
    decreases |rows|
  {
    if rows == [] then None
    else if KeyMatches(rows[0], g.field, g.value) then Some(rows[0])
    else FindOneIn(rows[1..], g)
  }

  /** A row is found exactly when one has the key; it is a stored row with that key, and with unique keys the only one. */
  lemma {:induction false} FindOneSpec(rows: seq<Category>, g: GetCategory)
    ensures FindOneIn(rows, g).Some? <==> exists x :: x in rows && KeyMatches(x, g.field, g.value)
    ensures FindOneIn(rows, g).Some? ==> FindOneIn(rows, g).value in rows && KeyMatches(FindOneIn(rows, g).value, g.field, g.value)
    ensures UniqueIds(rows) && UniqueSlugs(rows) && FindOneIn(rows, g).Some? ==>
      forall x :: x in rows && KeyMatches(x, g.field, g.value) ==> x == FindOneIn(rows, g).value
    decreases |rows|
  {
    if rows != [] {
      FindOneSpec(rows[1..], g);
      assert rows == [rows[0]] + rows[1..];
      if UniqueIds(rows) && UniqueSlugs(rows) && KeyMatches(rows[0], g.field, g.value) {
        forall x | x in rows[1..] ensures !KeyMatches(x, g.field, g.value) {
          var j :| 0 <= j < |rows[1..]| && rows[1..][j] == x;
          assert rows[j + 1] == x;
        }
      }
    }
  }

  /** The service object over the stored table. */
  class CategoryService {
    const slugPattern: string -> bool
    var rows: seq<Category>

    ghost predicate Valid()
      reads this
    {
      TableInvariant(rows, slugPattern)
    }

    constructor (slugPattern: string -> bool, rows: seq<Category>)
      requires TableInvariant(rows, slugPattern)
      ensures Valid() && this.slugPattern == slugPattern && this.rows == rows
    {
      this.slugPattern := slugPattern;
      this.rows := rows;
    }

    /** `createCategory`: one new row with the given id and time, or a refusal that changes nothing. */
    method CreateCategory(data: CreateCategory, id: string, now: Timestamp) returns (r: Result<Category, StoreError>)
      requires Valid()
      modifies this
      ensures Valid()
      ensures var row := NewRow(data, id, now);
        match InsertError(old(rows), row, slugPattern)
        case Some(e) => r == Err(e) && rows == old(rows)
        case None => r == Ok(row) && rows == old(rows) + [row]
    {
      var row := NewRow(data, id, now);
      var e := InsertError(rows, row, slugPattern);
      if e.Some? {
        r := Err(e.value);
      } else {
        InsertKeepsInvariant(rows, row, slugPattern);
        rows := rows + [row];
        r := Ok(row);
      }
    }

    /** `updateCategory`: the affected count and the patched table, or a refusal that changes nothing. */
    method UpdateCategory(id: string, data: UpdateCategory) returns (r: Result<nat, StoreError>)
      requires Valid()
      modifies this
      ensures Valid()
      ensures match UpdateError(old(rows), id, data, slugPattern)
        case Some(e) => r == Err(e) && rows == old(rows)
        case None => r == Ok(CountMatching(old(rows), id)) && rows == UpdateRows(old(rows), id, data)
    {
      var e := UpdateError(rows, id, data, slugPattern);
      if e.Some? {
        r := Err(e.value);
      } else {
        UpdateKeepsInvariant(rows, id, data, slugPattern);
        r := Ok(CountMatching(rows, id));
        rows := UpdateRows(rows, id, data);
      }
    }

    /** `deleteCategory`: the affected count; only the rows with that id go. */
    method DeleteCategory(id: string) returns (affected: nat)
      requires Valid()
      modifies this
      ensures Valid()
      ensures affected == CountMatching(old(rows), id)
      ensures rows == DeleteRows(old(rows), id)
    {
      DeleteKeepsInvariant(rows, id, slugPattern);
      affected := CountMatching(rows, id);
      rows := DeleteRows(rows, id);
    }

    /** `findOne`. */
    function FindOne(g: GetCategory): Option<Category>
      reads this
    {
      FindOneIn(rows, g)
    }

    /** `find`: the list query over the stored rows. */
    function Find(f: FilterCategories): seq<Category>
      reads this
    {
      CategoryQuery.Find(rows, f)
    }
  }
}
