/**
 * The text filter of the list query: `getRegexp` turns a search term into an anchored
 * pattern in which each lower-case `е` or `ё` becomes the class `[её]`, and PostgreSQL's
 * case-insensitive operator `~*` tests a column against it. Terms are taken literally.
 */
module SearchPattern {
  import opened Text

  const LowerE: char := 0x0435 as char   // е
  const LowerYo: char := 0x0451 as char  // ё

  predicate IsEOrYo(c: char) {
    c == LowerE || c == LowerYo
  }

  /** One position of the pattern: a literal character, or the class `[её]`. */
  datatype CharClass = Literal(c: char) | EOrYo

  /** A pattern anchored at the start of the value (the leading `^`). */
  type Pattern = seq<CharClass>

  /** `getRegexp`: `'^' + term.replace(/[её]/g, '[её]')`. */
  function GetRegexp(term: string): (p: Pattern)
    ensures |p| == |term|
  {
    seq(|term|, i requires 0 <= i < |term| => if IsEOrYo(term[i]) then EOrYo else Literal(term[i]))
  }

  /** A pattern position against one character, ignoring letter case. */
  predicate Accepts(k: CharClass, c: char) {
    match k
    case Literal(t) => Fold(c) == Fold(t)
    case EOrYo => IsEOrYo(Fold(c))
  }

  /** `value ~* '^…'`: the pattern matches some prefix of the value. */
  predicate MatchesAnchored(p: Pattern, value: string)
    decreases |p|
  {
    p == [] || (value != [] && Accepts(p[0], value[0]) && MatchesAnchored(p[1..], value[1..]))
  }

  /** `value ~* getRegexp(term)`. */
  predicate RegexMatches(value: string, term: string) {
    MatchesAnchored(GetRegexp(term), value)
  }

  /**
   * The intended meaning, stated position by position: a term character `е` or `ё`
   * accepts either letter in either case; any other term character accepts itself in
   * either case.
   */
  predicate SameLetter(t: char, c: char) {
    if IsEOrYo(t) then IsEOrYo(Fold(c)) else Fold(c) == Fold(t)
  }

  predicate StartsWithTerm(value: string, term: string) {
    |term| <= |value| && forall i :: 0 <= i < |term| ==> SameLetter(term[i], value[i])
  }

  lemma {:induction false} MatchesAnchoredSpec(p: Pattern, value: string)
    ensures MatchesAnchored(p, value) <==>
      |p| <= |value| && forall i :: 0 <= i < |p| ==> Accepts(p[i], value[i])
    decreases |p|
  {
    if p != [] && value != [] {
      MatchesAnchoredSpec(p[1..], value[1..]);
      if |p| <= |value| && forall i :: 0 <= i < |p| ==> Accepts(p[i], value[i]) {
        assert Accepts(p[0], value[0]);
        forall i | 0 <= i < |p| - 1 ensures Accepts(p[1..][i], value[1..][i]) {
          assert Accepts(p[i + 1], value[i + 1]);
        }
      }
      if MatchesAnchored(p, value) {
        forall i | 0 <= i < |p| ensures Accepts(p[i], value[i]) {
          if i > 0 {
            assert Accepts(p[1..][i - 1], value[1..][i - 1]);
          }
        }
      }
    }
  }

  /**
   * The pattern `getRegexp` builds means exactly an anchored, case-insensitive prefix
   * comparison with `е`/`ё` interchangeable where the term has them.
   */
  lemma RegexMatchesIff(value: string, term: string)
    ensures RegexMatches(value, term) <==> StartsWithTerm(value, term)
  {
    var p := GetRegexp(term);
    MatchesAnchoredSpec(p, value);
    assert forall i :: 0 <= i < |term| && i < |value| ==> (Accepts(p[i], value[i]) <==> SameLetter(term[i], value[i]));
  }

  /** Writing `ё` for `е` (or the reverse) at one position of the term changes nothing. */
  lemma EOrYoInterchangeable(value: string, term: string, k: nat)
    requires k < |term| && IsEOrYo(term[k])
    ensures RegexMatches(value, term[k := LowerE]) == RegexMatches(value, term)
    ensures RegexMatches(value, term[k := LowerYo]) == RegexMatches(value, term)
  {
    RegexMatchesIff(value, term);
    RegexMatchesIff(value, term[k := LowerE]);
    RegexMatchesIff(value, term[k := LowerYo]);
    assert forall i :: 0 <= i < |term| ==> (IsEOrYo(term[k := LowerE][i]) <==> IsEOrYo(term[i]));
    assert forall i :: 0 <= i < |term| ==> (IsEOrYo(term[k := LowerYo][i]) <==> IsEOrYo(term[i]));
  }

  /** The letter case of the column value does not matter. */
  lemma CaseOfValueIgnored(value: string, term: string)
    ensures RegexMatches(FoldAll(value), term) == RegexMatches(value, term)
  {
    RegexMatchesIff(value, term);
    RegexMatchesIff(FoldAll(value), term);
    forall c ensures Fold(Fold(c)) == Fold(c) {
      FoldIdempotent(c);
    }
  }

  /** Anchored at the start: only the first `|term|` characters are consulted. */
  lemma OnlyPrefixConsulted(value: string, rest: string, term: string)
    requires |term| <= |value|
    ensures RegexMatches(value + rest, term) == RegexMatches(value, term)
  {
    RegexMatchesIff(value, term);
    RegexMatchesIff(value + rest, term);
    assert forall i :: 0 <= i < |value| ==> (value + rest)[i] == value[i];
  }
}
