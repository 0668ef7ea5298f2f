/**
 * String helpers with the meaning JavaScript gives them: `String.prototype.trim`,
 * `Number(string)` for non-negative integers, and a letter case fold for ASCII and
 * basic Cyrillic (the fold used by case-insensitive matching).
 */
module Text {
  import opened Outcomes

  /** WhiteSpace and LineTerminator code points of ECMAScript, which `trim` and `Number` strip. */
  predicate IsWhitespace(c: char) {
    var n := c as int;
    n == 0x09 || n == 0x0A || n == 0x0B || n == 0x0C || n == 0x0D || n == 0x20 ||
    n == 0xA0 || n == 0x1680 || (0x2000 <= n <= 0x200A) || n == 0x2028 || n == 0x2029 ||
    n == 0x202F || n == 0x205F || n == 0x3000 || n == 0xFEFF
  }

  predicate AllWhitespace(s: string) {
    forall i :: 0 <= i < |s| ==> IsWhitespace(s[i])
  }

  function TrimStart(s: string): (r: string)
    decreases |s|
  {
    if s != [] && IsWhitespace(s[0]) then TrimStart(s[1..]) else s
  }

  function TrimEnd(s: string): (r: string)
    decreases |s|
  {
    if s != [] && IsWhitespace(s[|s| - 1]) then TrimEnd(s[..|s| - 1]) else s
  }

  /** `s.trim()`. */
  function Trim(s: string): string {
    TrimEnd(TrimStart(s))
  }

  /** The string has no white space at either end. */
  predicate Trimmed(s: string) {
    s == [] || (!IsWhitespace(s[0]) && !IsWhitespace(s[|s| - 1]))
  }

  lemma {:induction false} TrimStartShape(s: string)
    ensures |TrimStart(s)| <= |s|
    ensures TrimStart(s) == s[|s| - |TrimStart(s)|..]
    ensures AllWhitespace(s[..|s| - |TrimStart(s)|])
    ensures TrimStart(s) == [] || !IsWhitespace(TrimStart(s)[0])
    decreases |s|
  {
    if s != [] && IsWhitespace(s[0]) {
      TrimStartShape(s[1..]);
      var k := |s| - |TrimStart(s)|;
      assert s[1..][..k - 1] == s[1..k];
      assert forall i :: 1 <= i < k ==> s[i] == s[1..][..k - 1][i - 1];
    }
  }

  lemma {:induction false} TrimEndShape(s: string)
    ensures |TrimEnd(s)| <= |s|
    ensures TrimEnd(s) == s[..|TrimEnd(s)|]
    ensures AllWhitespace(s[|TrimEnd(s)|..])
    ensures TrimEnd(s) == [] || !IsWhitespace(TrimEnd(s)[|TrimEnd(s)| - 1])
    decreases |s|
  {
    if s != [] && IsWhitespace(s[|s| - 1]) {
      var p := s[..|s| - 1];
      TrimEndShape(p);
      var k := |TrimEnd(p)|;
      assert p[k..] + [s[|s| - 1]] == s[k..];
    }
  }

  /** A string without white space at its start keeps it after `TrimEnd`. */
  lemma {:induction false} TrimEndKeepsStart(s: string)
    requires s != [] && !IsWhitespace(s[0])
    ensures TrimEnd(s) != [] && TrimEnd(s)[0] == s[0]
    decreases |s|
  {
    if IsWhitespace(s[|s| - 1]) {
      TrimEndKeepsStart(s[..|s| - 1]);
    }
  }

  /**
   * `trim` removes exactly the white space at both ends: the result is a contiguous
   * part of the input, everything cut off is white space, and the result itself has
   * no white space at either end.
   */
  lemma TrimSpec(s: string)
    ensures var t := Trim(s);
      Trimmed(t) &&
      exists i :: 0 <= i <= |s| - |t| && s[i..i + |t|] == t &&
        AllWhitespace(s[..i]) && AllWhitespace(s[i + |t|..])
  {
    var u := TrimStart(s);
    TrimStartShape(s);
    TrimEndShape(u);
    var t := TrimEnd(u);
    var i := |s| - |u|;
    if u != [] {
      TrimEndKeepsStart(u);
    }
    assert s[i..i + |t|] == u[..|t|];
    assert s[i + |t|..] == u[|t|..];
  }

  /** A string that is already trimmed is left unchanged: `trim` is idempotent. */
  lemma TrimOfTrimmed(s: string)
    requires Trimmed(s)
    ensures Trim(s) == s
  {
    if s != [] {
      assert TrimStart(s) == s;
      assert TrimEnd(s) == s;
    }
  }

  lemma TrimIdempotent(s: string)
    ensures Trim(Trim(s)) == Trim(s)
  {
    TrimSpec(s);
    TrimOfTrimmed(Trim(s));
  }

  /** `trim` gives the empty string exactly for white-space-only input. */
  lemma {:induction false} TrimEmptyIff(s: string)
    ensures Trim(s) == "" <==> AllWhitespace(s)
  {
    TrimStartShape(s);
    if AllWhitespace(s) {
      TrimStartAllWhitespace(s);
    } else {
      var u := TrimStart(s);
      if u != [] {
        TrimEndKeepsStart(u);
      }
    }
  }

  lemma {:induction false} TrimStartAllWhitespace(s: string)
    requires AllWhitespace(s)
    ensures TrimStart(s) == []
    decreases |s|
  {
    if s != [] {
      TrimStartAllWhitespace(s[1..]);
    }
  }

  // ---- Number(string), restricted to non-negative integers ----

  predicate IsDigit(c: char) {
    '0' <= c <= '9'
  }

  predicate AllDigits(s: string) {
    forall i :: 0 <= i < |s| ==> IsDigit(s[i])
  }

  function DigitValue(c: char): nat
    requires IsDigit(c)
  {
    (c as int) - ('0' as int)
  }

  /** The value of a string of decimal digits, most significant first. */
  function DecimalValue(s: string): nat
    requires AllDigits(s)
    decreases |s|
  {
    if s == [] then 0 else DecimalValue(s[..|s| - 1]) * 10 + DigitValue(s[|s| - 1])
  }

  /**
   * `Number(s)` for the inputs the model covers: surrounding white space is ignored,
   * the empty string is 0, a run of decimal digits is its value; anything else is NaN
   * (`None`).
   */
  function ToNumber(s: string): Option<nat> {
    var t := Trim(s);
    if t == "" then Some(0)
    else if AllDigits(t) then Some(DecimalValue(t))
    else None
  }

  function DigitChar(d: nat): (c: char)
    requires d < 10
    ensures IsDigit(c) && DigitValue(c) == d
  {
    (('0' as int) + d) as char
  }

  /** The decimal representation of `n`, without leading zeros. */
  function ShowNat(n: nat): (s: string)
    decreases n
  {
    if n < 10 then [DigitChar(n)] else ShowNat(n / 10) + [DigitChar(n % 10)]
  }

  lemma {:induction false} ShowNatDigits(n: nat)
    ensures ShowNat(n) != [] && AllDigits(ShowNat(n))
    ensures DecimalValue(ShowNat(n)) == n
    decreases n
  {
    if n >= 10 {
      ShowNatDigits(n / 10);
      var s := ShowNat(n);
      assert s[..|s| - 1] == ShowNat(n / 10);
    }
  }

  /** `Number` reads back every decimal numeral: `Number(String(n)) === n`. */
  lemma ToNumberOfShowNat(n: nat)
    ensures ToNumber(ShowNat(n)) == Some(n)
  {
    ShowNatDigits(n);
    var s := ShowNat(n);
    assert !IsWhitespace(s[0]) && !IsWhitespace(s[|s| - 1]);
    TrimOfTrimmed(s);
  }

  // ---- letter case ----

  /**
   * Lower-case letter fold: ASCII `A`-`Z`, Cyrillic `А`-`Я` (U+0410-U+042F) and `Ё`
   * (U+0401) map to their lower-case letters; every other character is its own fold.
   */
  function Fold(c: char): (r: char)
  {
    if 'A' <= c <= 'Z' then ((c as int) + 32) as char
    else if 0x0410 <= c as int <= 0x042F then ((c as int) + 32) as char
    else if c as int == 0x0401 then 0x0451 as char
    else c
  }

  lemma FoldIdempotent(c: char)
    ensures Fold(Fold(c)) == Fold(c)
  {
  }

  function FoldAll(s: string): (r: string)
    ensures |r| == |s| && forall i :: 0 <= i < |s| ==> r[i] == Fold(s[i])
  {
    seq(|s|, i requires 0 <= i < |s| => Fold(s[i]))
  }
}
