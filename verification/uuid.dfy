/**
 * The textual UUID check of the get-one endpoint: the version-4 form of RFC 4122
 * (section 3 layout, section 4.1.3 version nibble, section 4.1.1 variant bits), letter
 * case ignored. Also the equality of the `uuid` column, which compares values, so two
 * spellings that differ only in letter case name the same id.
 */
module Uuid {
  import opened Text

  predicate IsHexDigit(c: char) {
    '0' <= c <= '9' || 'a' <= c <= 'f' || 'A' <= c <= 'F'
  }

  predicate HexRun(s: string) {
    s == [] || (IsHexDigit(s[0]) && HexRun(s[1..]))
  }

  lemma {:induction false} HexRunAll(s: string)
    ensures HexRun(s) <==> forall i :: 0 <= i < |s| ==> IsHexDigit(s[i])
  {
    if s != [] {
      HexRunAll(s[1..]);
      assert forall i :: 1 <= i < |s| ==> s[1..][i - 1] == s[i];
    }
  }

  /** The variant nibble `10xx`: `8`, `9`, `a` or `b`, in either case. */
  predicate IsVariantDigit(c: char) {
    c in "89abAB"
  }

  /**
   * Group by group: eight hex digits, `-`, four, `-`, `4` and three, `-`, a variant
   * digit and three, `-`, twelve, and nothing else.
   */
  predicate IsUuid(v: string) {
    && |v| == 36
    && HexRun(v[0..8]) && v[8] == '-'
    && HexRun(v[9..13]) && v[13] == '-'
    && v[14] == '4' && HexRun(v[15..18]) && v[18] == '-'
    && IsVariantDigit(v[19]) && HexRun(v[20..23]) && v[23] == '-'
    && HexRun(v[24..36])
  }

  /** Position by position: 36 characters, `-` exactly at 8, 13, 18, 23, hex digits elsewhere, version and variant fixed. */
  ghost predicate UuidLayout(v: string) {
    && |v| == 36
    && (forall i :: 0 <= i < |v| ==> if i in {8, 13, 18, 23} then v[i] == '-' else IsHexDigit(v[i]))
    && v[14] == '4'
    && IsVariantDigit(v[19])
  }

  lemma HexRunAt(v: string, lo: int, hi: int)
    requires 0 <= lo <= hi <= |v|
    ensures HexRun(v[lo..hi]) <==> forall i :: lo <= i < hi ==> IsHexDigit(v[i])
  {
    HexRunAll(v[lo..hi]);
    if HexRun(v[lo..hi]) {
      forall i | lo <= i < hi ensures IsHexDigit(v[i]) {
        assert v[lo..hi][i - lo] == v[i];
      }
    }
  }

  lemma IsUuidIff(v: string)
    ensures IsUuid(v) <==> UuidLayout(v)
  {
    if |v| == 36 {
      HexRunAt(v, 0, 8);
      HexRunAt(v, 9, 13);
      HexRunAt(v, 15, 18);
      HexRunAt(v, 20, 23);
      HexRunAt(v, 24, 36);
      if UuidLayout(v) {
        assert v[8] == '-' && v[13] == '-' && v[18] == '-' && v[23] == '-';
      }
    }
  }

  /** Folding letter case changes none of the characters the check looks at into or out of its classes. */
  lemma FoldKeepsUuidClasses(c: char)
    ensures IsHexDigit(Fold(c)) <==> IsHexDigit(c)
    ensures IsVariantDigit(Fold(c)) <==> IsVariantDigit(c)
    ensures Fold(c) == '-' <==> c == '-'
    ensures Fold(c) == '4' <==> c == '4'
  {
  }

  /** The `i` flag: a value passes exactly when its lower-case form does. */
  lemma IsUuidIgnoresCase(v: string)
    ensures IsUuid(v) <==> IsUuid(FoldAll(v))
  {
    var w := FoldAll(v);
    IsUuidIff(v);
    IsUuidIff(w);
    forall i | 0 <= i < |v| {
      FoldKeepsUuidClasses(v[i]);
    }
    if UuidLayout(w) {
      forall i | 0 <= i < |v| ensures if i in {8, 13, 18, 23} then v[i] == '-' else IsHexDigit(v[i]) {
        assert w[i] == Fold(v[i]);
      }
    }
  }

  /** Equality of the `uuid` column. */
  predicate SameUuid(a: string, b: string) {
    FoldAll(a) == FoldAll(b)
  }

  lemma {:induction false} HexRunAppend(a: string, b: string)
    ensures HexRun(a + b) <==> HexRun(a) && HexRun(b)
  {
    if a != [] {
      assert (a + b)[1..] == a[1..] + b;
      HexRunAppend(a[1..], b);
    } else {
      assert a + b == b;
    }
  }

  /** The text `g1-g2-4g3-<variant>g4-g5`. */
  function Spell(g1: string, g2: string, g3: string, variant: char, g4: string, g5: string): string {
    g1 + (['-'] + SpellTail(g2, g3, variant, g4, g5))
  }

  /** Everything after the first `-`. */
  function SpellTail(g2: string, g3: string, variant: char, g4: string, g5: string): string {
    g2 + (['-', '4'] + (g3 + (['-', variant] + (g4 + (['-'] + g5)))))
  }

  lemma SpellTailGroups(g2: string, g3: string, variant: char, g4: string, g5: string)
    requires |g2| == 4 && |g3| == 3 && |g4| == 3 && |g5| == 12
    ensures var s := SpellTail(g2, g3, variant, g4, g5);
      && |s| == 27 && s[0..4] == g2 && s[6..9] == g3 && s[11..14] == g4 && s[15..27] == g5
      && s[4] == '-' && s[5] == '4' && s[9] == '-' && s[10] == variant && s[14] == '-'
  {
    var s := SpellTail(g2, g3, variant, g4, g5);
    var t := g4 + (['-'] + g5);
    assert s == g2 + (['-', '4'] + (g3 + (['-', variant] + t)));
    assert s[11..] == t;
    assert s[11..14] == t[0..3];
    assert s[15..27] == t[4..];
  }

  /** Each group sits at the positions the check reads it from. */
  lemma SpellGroups(g1: string, g2: string, g3: string, variant: char, g4: string, g5: string)
    requires |g1| == 8 && |g2| == 4 && |g3| == 3 && |g4| == 3 && |g5| == 12
    ensures var v := Spell(g1, g2, g3, variant, g4, g5);
      && |v| == 36 && v[0..8] == g1 && v[9..13] == g2 && v[15..18] == g3 && v[20..23] == g4 && v[24..36] == g5
      && v[8] == '-' && v[13] == '-' && v[14] == '4' && v[18] == '-' && v[19] == variant && v[23] == '-'
  {
    var v := Spell(g1, g2, g3, variant, g4, g5);
    var s := SpellTail(g2, g3, variant, g4, g5);
    assert v == g1 + (['-'] + s);
    assert v[9..] == s;
    SpellTailGroups(g2, g3, variant, g4, g5);
    assert v[9..13] == s[0..4];
    assert v[15..18] == s[6..9];
    assert v[20..23] == s[11..14];
    assert v[24..36] == s[15..27];
  }

  /** Any five hex groups of lengths 8, 4, 3, 3 and 12, with version `4` and a variant digit, spell an id that passes. */
  lemma UuidFromGroups(g1: string, g2: string, g3: string, variant: char, g4: string, g5: string)
    requires |g1| == 8 && |g2| == 4 && |g3| == 3 && |g4| == 3 && |g5| == 12
    requires HexRun(g1) && HexRun(g2) && HexRun(g3) && HexRun(g4) && HexRun(g5)
    requires IsVariantDigit(variant)
    ensures IsUuid(Spell(g1, g2, g3, variant, g4, g5))
  {
    SpellGroups(g1, g2, g3, variant, g4, g5);
  }

  lemma SeedIdGroups()
    ensures HexRun("86713e06") && HexRun("5de0") && HexRun("ac3") && HexRun("a09")
  {
  }

  lemma SeedIdLastGroup()
    ensures HexRun("9ad13592cc17")
  {
    assert HexRun("9ad135") && HexRun("92cc17");
    HexRunAppend("9ad135", "92cc17");
    assert "9ad135" + "92cc17" == "9ad13592cc17";
  }

  lemma SeedIdSpelling()
    ensures Spell("86713e06", "5de0", "ac3", 'b', "a09", "9ad13592cc17") == "86713e06-5de0-4ac3-ba09-9ad13592cc17"
  {
    assert SpellTail("5de0", "ac3", 'b', "a09", "9ad13592cc17") == "5de0-4ac3-ba09-9ad13592cc17";
    assert "86713e06" + (['-'] + "5de0-4ac3-ba09-9ad13592cc17") == "86713e06-5de0-4ac3-ba09-9ad13592cc17";
  }

  /** A seed id passes. */
  lemma UuidAcceptsSeedId()
    ensures IsUuid("86713e06-5de0-4ac3-ba09-9ad13592cc17")
  {
    SeedIdGroups();
    SeedIdLastGroup();
    SeedIdSpelling();
    UuidFromGroups("86713e06", "5de0", "ac3", 'b', "a09", "9ad13592cc17");
  }

  lemma UpperCaseGroups()
    ensures HexRun("1E05A878") && HexRun("AB63") && HexRun("546") && HexRun("6E8")
  {
  }

  lemma UpperCaseLastGroup()
    ensures HexRun("6FBD2B903D80")
  {
    assert HexRun("6FBD2B") && HexRun("903D80");
    HexRunAppend("6FBD2B", "903D80");
    assert "6FBD2B" + "903D80" == "6FBD2B903D80";
  }

  lemma UpperCaseSpelling()
    ensures Spell("1E05A878", "AB63", "546", '8', "6E8", "6FBD2B903D80") == "1E05A878-AB63-4546-86E8-6FBD2B903D80"
  {
    assert SpellTail("AB63", "546", '8', "6E8", "6FBD2B903D80") == "AB63-4546-86E8-6FBD2B903D80";
    assert "1E05A878" + (['-'] + "AB63-4546-86E8-6FBD2B903D80") == "1E05A878-AB63-4546-86E8-6FBD2B903D80";
  }

  /** An upper-case version-4 id passes. */
  lemma UuidAcceptsUpperCase()
    ensures IsUuid("1E05A878-AB63-4546-86E8-6FBD2B903D80")
  {
    UpperCaseGroups();
    UpperCaseLastGroup();
    UpperCaseSpelling();
    UuidFromGroups("1E05A878", "AB63", "546", '8', "6E8", "6FBD2B903D80");
  }

  /** A short string, a version-1 id and an id with variant bits `110` fail. */
  lemma UuidRejects()
    ensures !IsUuid("aaa")
    ensures !IsUuid("1e05a878-ab63-1546-86e8-6fbd2b903d80")
    ensures !IsUuid("1e05a878-ab63-4546-c6e8-6fbd2b903d80")
  {
    var v1 := "1e05a878-ab63-1546-86e8-6fbd2b903d80";
    assert v1[14] == '1';
    var v2 := "1e05a878-ab63-4546-c6e8-6fbd2b903d80";
    assert v2[19] == 'c';
  }
}
