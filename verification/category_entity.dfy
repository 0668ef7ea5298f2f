/**
 * The `categories` row. Timestamps are milliseconds since the Unix epoch (the value a
 * JavaScript `Date` holds); `description` is the one nullable column.
 */
module CategoryEntity {
  import opened Outcomes
  import opened Uuid

  type Timestamp = int

  datatype Category = Category(
    id: string,
    slug: string,
    name: string,
    description: Option<string>,
    createdDate: Timestamp,
    active: bool)

  /** The primary key: no two rows hold the same `uuid` value. */
  ghost predicate UniqueIds(rows: seq<Category>) {
    forall i, j :: 0 <= i < j < |rows| ==> !SameUuid(rows[i].id, rows[j].id)
  }

  /** The UNIQUE constraint on `slug`. */
  ghost predicate UniqueSlugs(rows: seq<Category>) {
    forall i, j :: 0 <= i < j < |rows| ==> rows[i].slug != rows[j].slug
  }

  predicate HasId(rows: seq<Category>, id: string) {
    exists i :: 0 <= i < |rows| && SameUuid(rows[i].id, id)
  }

  predicate HasSlug(rows: seq<Category>, slug: string) {
    exists i :: 0 <= i < |rows| && rows[i].slug == slug
  }
}
