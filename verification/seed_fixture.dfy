/**
 * The four rows the seed script loads, and what the list query returns for them: the
 * answers the end-to-end tests expect, derived from the model.
 */
module SeedFixture {
  import opened Outcomes
  import opened Text
  import opened CategoryEntity
  import opened RequestValues
  import opened SearchPattern
  import opened Sorting
  import opened FilterCategoriesDto
  import opened CategoryQuery

  // Creation times are the seed's ISO dates in milliseconds since the epoch.
  const First: Category := Category("41d36d01-3d06-48ec-90ea-735d95d8a1f2", "first", "Мед", Some("мЁд"), 1709733506778, true)
  const Second: Category := Category("5bbfbdec-f2a9-4d36-8cad-3579c1d8de3b", "second", "мёд", None, 1712411906778, true)
  const Third: Category := Category("86713e06-5de0-4ac3-ba09-9ad13592cc17", "third", "прогоол!", Some("Мед"), 1712066306778, false)
  const Fourth: Category := Category("179d9fb4-1b89-49c8-918e-e99d67285144", "fourth", "афобазол", Some("парам пам пам"), 1733493506778, false)

  const Seed: seq<Category> := [First, Second, Third, Fourth]

  /** The list parameters with nothing but the default page size. */
  const NoFilter: FilterCategories := FilterCategories(None, None, None, None, Some(DefaultPageSize), None, None)

  const Med: string := "мед"

  /** `getRegexp("мед")` is `м[её]д`. */
  lemma MedPattern()
    ensures GetRegexp(Med) == [Literal('м'), EOrYo, Literal('д')]
  {
  }

  /** A value starting with `м`, `е` or `ё`, `д` in any case matches `м[её]д`; one whose first letter is not `м` does not. */
  lemma MedMatch(v: string)
    ensures |v| >= 3 && Fold(v[0]) == 'м' && IsEOrYo(Fold(v[1])) && Fold(v[2]) == 'д' ==> MatchesAnchored(GetRegexp(Med), v)
    ensures |v| >= 1 && Fold(v[0]) != 'м' ==> !MatchesAnchored(GetRegexp(Med), v)
  {
    MedPattern();
    MatchesAnchoredSpec(GetRegexp(Med), v);
    if |v| >= 1 && Fold(v[0]) != 'м' {
      assert !Accepts(GetRegexp(Med)[0], v[0]);
    }
  }

  /** The seed's names and descriptions against `м[её]д`. */
  lemma MedOnSeed()
    ensures MatchesAnchored(GetRegexp(Med), "Мед")
    ensures MatchesAnchored(GetRegexp(Med), "мЁд")
    ensures MatchesAnchored(GetRegexp(Med), "мёд")
    ensures !MatchesAnchored(GetRegexp(Med), "прогоол!")
    ensures !MatchesAnchored(GetRegexp(Med), "афобазол")
    ensures !MatchesAnchored(GetRegexp(Med), "парам пам пам")
  {
    MedMatch("Мед");
    MedMatch("мЁд");
    MedMatch("мёд");
    MedMatch("прогоол!");
    MedMatch("афобазол");
    MedMatch("парам пам пам");
  }

  /** Two rows in the order the newest-first sort gives them. */
  lemma NewestFirstPair(a: Category, b: Category)
    requires b.createdDate > a.createdDate
    ensures SortRows([a, b], DefaultSort) == [b, a]
  {
    var le := Before(DefaultSort);
    assert [a, b][1..] == [b] && [b][1..] == [];
    assert InsertionSort([b], le) == [b];
    assert !le(a, b);
    assert Insert(a, [b], le) == [b] + Insert(a, [], le);
  }

  /** The seed's suffixes, which `Select` and `InsertionSort` walk through. */
  lemma SeedTails()
    ensures Seed[1..] == [Second, Third, Fourth] && Seed[1..][1..] == [Third, Fourth] && Seed[1..][1..][1..] == [Fourth]
    ensures [Fourth][1..] == []
  {
  }

  lemma NameSelectOnSeed()
    ensures Select(Seed, [NameMatches(GetRegexp(Med))]) == [First, Second]
  {
    var cs := [NameMatches(GetRegexp(Med))];
    MedOnSeed();
    SeedTails();
    assert HoldsAll(cs, First) && HoldsAll(cs, Second);
    assert !Holds(cs[0], Third) && !Holds(cs[0], Fourth);
    assert Select([Fourth], cs) == [];
    assert Select([Third, Fourth], cs) == [];
    assert Select([Second, Third, Fourth], cs) == [Second];
  }

  /** `name=мед`: the row named `мёд`, then the one named `Мед`, newest first. */
  lemma NameFilterOnSeed()
    ensures Find(Seed, NoFilter.(name := Some(Med))) == [Second, First]
  {
    var f := NoFilter.(name := Some(Med));
    assert Conditions(f) == [NameMatches(GetRegexp(Med))];
    NameSelectOnSeed();
    NewestFirstPair(First, Second);
  }

  lemma DescriptionSelectOnSeed()
    ensures Select(Seed, [DescriptionMatches(GetRegexp(Med))]) == [First, Third]
  {
    var cs := [DescriptionMatches(GetRegexp(Med))];
    MedOnSeed();
    SeedTails();
    assert HoldsAll(cs, First) && HoldsAll(cs, Third);
    assert !Holds(cs[0], Second) && !Holds(cs[0], Fourth);
    assert Select([Fourth], cs) == [];
    assert Select([Third, Fourth], cs) == [Third];
    assert Select([Second, Third, Fourth], cs) == [Third];
  }

  /** `description=мед`: the row described `Мед`, then the one described `мЁд`, newest first. */
  lemma DescriptionFilterOnSeed()
    ensures Find(Seed, NoFilter.(description := Some(Med))) == [Third, First]
  {
    var f := NoFilter.(description := Some(Med));
    assert Conditions(f) == [DescriptionMatches(GetRegexp(Med))];
    DescriptionSelectOnSeed();
    NewestFirstPair(First, Third);
  }

  lemma SearchSelectOnSeed()
    ensures Select(Seed, [NameOrDescriptionMatches(GetRegexp(Med))]) == [First, Second, Third]
  {
    var cs := [NameOrDescriptionMatches(GetRegexp(Med))];
    MedOnSeed();
    SeedTails();
    assert HoldsAll(cs, First) && HoldsAll(cs, Second) && HoldsAll(cs, Third);
    assert !Holds(cs[0], Fourth);
    assert Select([Fourth], cs) == [];
    assert Select([Third, Fourth], cs) == [Third];
    assert Select([Second, Third, Fourth], cs) == [Second, Third];
  }

  /** `search=мед&pageSize=4`: every row whose name or description matches, newest first; `name`/`description` play no part. */
  lemma SearchOnSeed()
    ensures Find(Seed, NoFilter.(search := Some(Med), pageSize := Some(4))) == [Second, Third, First]
  {
    var f := NoFilter.(search := Some(Med), pageSize := Some(4));
    assert Conditions(f) == [NameOrDescriptionMatches(GetRegexp(Med))];
    SearchSelectOnSeed();
    SearchResultOrder();
  }

  lemma SearchResultOrder()
    ensures SortRows([First, Second, Third], DefaultSort) == [Second, Third, First]
  {
    var le := Before(DefaultSort);
    assert [First, Second, Third][1..] == [Second, Third] && [Second, Third][1..] == [Third] && [Third][1..] == [];
    assert InsertionSort([Third], le) == [Third];
    assert InsertionSort([Second, Third], le) == [Second, Third];
    assert Insert(First, [Third], le) == [Third, First];
    assert Insert(First, [Second, Third], le) == [Second, Third, First];
  }

  /** A request without parameters validates to the default filter. */
  lemma EmptyQueryIsNoFilter()
    ensures ValidateFilter(map[]) == Ok(NoFilter)
  {
    var q: map<string, string> := map[];
    UnknownPropertiesEmpty(q, FilterProperties);
  }

  lemma NoConditionKeepsSeed()
    ensures Select(Seed, []) == Seed
  {
    SeedTails();
    assert Select([Fourth], []) == [Fourth];
    assert Select([Third, Fourth], []) == [Third, Fourth];
    assert Select([Second, Third, Fourth], []) == [Second, Third, Fourth];
  }

  lemma NewestFirstTail()
    ensures SortRows([Second, Third, Fourth], DefaultSort) == [Fourth, Second, Third]
  {
    var le := Before(DefaultSort);
    SeedTails();
    assert InsertionSort([Fourth], le) == [Fourth];
    assert InsertionSort([Third, Fourth], le) == [Fourth, Third] by {
      assert Insert(Third, [Fourth], le) == [Fourth] + Insert(Third, [], le);
    }
    assert [Fourth, Third][1..] == [Third];
    assert Insert(Second, [Fourth, Third], le) == [Fourth] + Insert(Second, [Third], le);
  }

  /** The whole seed, newest first. */
  lemma NewestFirstSeed()
    ensures SortRows(Seed, DefaultSort) == [Fourth, Second, Third, First]
  {
    var le := Before(DefaultSort);
    SeedTails();
    NewestFirstTail();
    assert [Fourth, Second, Third][1..] == [Second, Third] && [Second, Third][1..] == [Third] && [Third][1..] == [];
    assert Insert(First, [Fourth, Second, Third], le) == [Fourth] + Insert(First, [Second, Third], le);
    assert Insert(First, [Second, Third], le) == [Second] + Insert(First, [Third], le);
    assert Insert(First, [Third], le) == [Third] + Insert(First, [], le);
  }

  /** No parameters: the two newest rows, newest first. */
  lemma DefaultListOnSeed()
    ensures Find(Seed, ValidateFilter(map[]).value) == [Fourth, Second]
  {
    EmptyQueryIsNoFilter();
    assert Conditions(NoFilter) == [];
    NoConditionKeepsSeed();
    NewestFirstSeed();
    assert [Fourth, Second, Third, First][0..2] == [Fourth, Second];
  }
}
