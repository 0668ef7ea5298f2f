/**
 * `IsSlugAlreadyExistsValidator`: a slug passes when the store holds no row with
 * exactly that slug. No row is excluded, so on update a row's own slug counts as taken.
 * The check is a function of the stored rows and the slug alone: it reads the store
 * and changes nothing.
 */
module SlugValidator {
  import opened Outcomes
  import opened CategoryEntity

  /** `find({ where: { slug } })`: the stored rows whose slug equals the given one, in store order. */
  function RowsWithSlug(rows: seq<Category>, slug: string): seq<Category>
    decreases |rows|
  {
    if rows == [] then []
    else if rows[0].slug == slug then [rows[0]] + RowsWithSlug(rows[1..], slug)
    else RowsWithSlug(rows[1..], slug)
  }

  /** `categories.length === 0`. */
  predicate SlugIsFree(rows: seq<Category>, slug: string) {
    |RowsWithSlug(rows, slug)| == 0
  }

  lemma {:induction false} RowsWithSlugSpec(rows: seq<Category>, slug: string)
    ensures forall x :: x in RowsWithSlug(rows, slug) <==> x in rows && x.slug == slug
    decreases |rows|
  {
    if rows != [] {
      RowsWithSlugSpec(rows[1..], slug);
      assert rows == [rows[0]] + rows[1..];
    }
  }

  /** A slug is free exactly when no stored row has it. */
  lemma SlugIsFreeIff(rows: seq<Category>, slug: string)
    ensures SlugIsFree(rows, slug) <==> !HasSlug(rows, slug)
  {
    RowsWithSlugSpec(rows, slug);
    if HasSlug(rows, slug) {
      var i :| 0 <= i < |rows| && rows[i].slug == slug;
      assert rows[i] in RowsWithSlug(rows, slug);
    }
    if !SlugIsFree(rows, slug) {
      var x := RowsWithSlug(rows, slug)[0];
      assert x in rows && x.slug == slug;
    }
  }

  /** Every stored slug is reported as taken, the slug of the row being updated included. */
  lemma OwnSlugTaken(rows: seq<Category>, i: int)
    requires 0 <= i < |rows|
    ensures !SlugIsFree(rows, rows[i].slug)
  {
    SlugIsFreeIff(rows, rows[i].slug);
  }

  const TakenPrefix: string := "Категория с параметром slug \""
  const TakenSuffix: string := "\" уже существует."

  /** `defaultMessage`: the rejected value, quoted, inside a fixed sentence. */
  function SlugTakenMessage(value: string): string {
    TakenPrefix + value + TakenSuffix
  }

  /** The slug a taken-slug message was made for, read back from between the fixed parts. */
  function MessageSlug(m: string): Option<string> {
    if |m| >= |TakenPrefix| + |TakenSuffix| && m[..|TakenPrefix|] == TakenPrefix && m[|m| - |TakenSuffix|..] == TakenSuffix
    then Some(m[|TakenPrefix|..|m| - |TakenSuffix|])
    else None
  }

  /** The message carries the rejected slug verbatim: it can be read back unchanged. */
  lemma SlugTakenMessageRoundTrip(value: string)
    ensures MessageSlug(SlugTakenMessage(value)) == Some(value)
  {
    var m := SlugTakenMessage(value);
    assert m[..|TakenPrefix|] == TakenPrefix;
    assert m[|m| - |TakenSuffix|..] == TakenSuffix;
    assert m[|TakenPrefix|..|m| - |TakenSuffix|] == value;
  }
}
