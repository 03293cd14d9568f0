/**
 * The JavaScript string built-ins the core relies on, restricted to what the
 * core needs: `toLowerCase` (ASCII letters only), `includes`, `parseInt`
 * (decimal) and the decimal rendering of an integer.
 */
module JsString {
  import opened Wrappers

  predicate IsUpper(c: char) {
    'A' <= c <= 'Z'
  }

  /** The lower-case form of one character; only A-Z are changed. */
  function LowerChar(c: char): (d: char)
    ensures !IsUpper(d)
    ensures IsUpper(c) ==> d as int == c as int + 32
    ensures !IsUpper(c) ==> d == c
  {
    if IsUpper(c) then (c as int + 32) as char else c
  }

  /** `s.toLowerCase()`: each character is lowered, the length is kept. */
  function ToLower(s: string): (r: string)
    ensures |r| == |s|
    ensures forall i :: 0 <= i < |s| ==> r[i] == LowerChar(s[i])
  {
    if s == [] then [] else [LowerChar(s[0])] + ToLower(s[1..])
  }

  /** Lowering twice is lowering once. */
  lemma ToLowerIdempotent(s: string)
    ensures ToLower(ToLower(s)) == ToLower(s)
  {
    var once := ToLower(s);
    var twice := ToLower(once);
    assert |twice| == |once|;
    forall i | 0 <= i < |once| ensures twice[i] == once[i] {
      assert !IsUpper(once[i]);
    }
  }

  /** `t` sits in `s` starting at index `i`. */
  predicate OccursAt(t: string, s: string, i: nat) {
    i + |t| <= |s| && s[i..i + |t|] == t
  }

  ghost predicate IsSubstring(t: string, s: string) {
    exists i: nat :: OccursAt(t, s, i)
  }

  /** `s.includes(t)`, by trying each start position in turn. */
  function Includes(s: string, t: string): bool
    decreases |s|
  {
    if |t| > |s| then false
    else if s[..|t|] == t then true
    else Includes(s[1..], t)
  }

  /** `includes` answers exactly "is `t` a substring of `s`". */
  lemma {:induction false} IncludesIsSubstring(s: string, t: string)
    ensures Includes(s, t) <==> IsSubstring(t, s)
    decreases |s|
  {
    if |t| > |s| {
      assert forall i: nat :: !OccursAt(t, s, i);
    } else if s[..|t|] == t {
      assert OccursAt(t, s, 0);
    } else {
      IncludesIsSubstring(s[1..], t);
      if Includes(s[1..], t) {
        var j: nat :| OccursAt(t, s[1..], j);
        assert s[1..][j..j + |t|] == s[j + 1..j + 1 + |t|];
        assert OccursAt(t, s, j + 1);
      }
      if IsSubstring(t, s) {
        var i: nat :| OccursAt(t, s, i);
        assert i != 0;
        assert s[1..][i - 1..i - 1 + |t|] == s[i..i + |t|];
        assert OccursAt(t, s[1..], i - 1);
      }
    }
  }

  /** The empty string is included in every string. */
  lemma IncludesEmpty(s: string)
    ensures Includes(s, "")
  {
    assert s[..0] == "";
  }

  predicate IsDigit(c: char) {
    '0' <= c <= '9'
  }

  /** The white space `parseInt` skips before the number (the ASCII part only). */
  predicate IsSpace(c: char) {
    c == ' ' || c == '\t' || c == '\n' || c == '\U{B}' || c == '\U{C}' || c == '\r'
  }

  function TrimStart(s: string): (r: string)
  {
    if s != [] && IsSpace(s[0]) then TrimStart(s[1..]) else s
  }

  /** The longest prefix of `s` made of decimal digits. */
  function DigitPrefix(s: string): (d: string)
    ensures |d| <= |s| && d == s[..|d|]
    ensures forall i :: 0 <= i < |d| ==> IsDigit(d[i])
    ensures |d| < |s| ==> !IsDigit(s[|d|])
  {
    if s != [] && IsDigit(s[0]) then [s[0]] + DigitPrefix(s[1..]) else []
  }

  function DigitValue(c: char): nat
    requires IsDigit(c)
  {
    c as int - '0' as int
  }

  function DigitChar(n: nat): (c: char)
    requires n < 10
    ensures IsDigit(c) && DigitValue(c) == n
  {
    ('0' as int + n) as char
  }

  /** The number a string of decimal digits denotes, most significant first. */
  function DigitsValue(d: string): nat
    requires forall i :: 0 <= i < |d| ==> IsDigit(d[i])
  {
    if d == [] then 0 else DigitsValue(d[..|d| - 1]) * 10 + DigitValue(d[|d| - 1])
  }

  /**
   * `parseInt(s)` in base 10: leading white space is skipped, one sign is
   * read, then the longest run of digits; no digits gives NaN (None).
   */
  function ParseInt(s: string): Option<int>
  {
    ParseSigned(TrimStart(s))
  }

  /** The number at the start of `u`: an optional sign, then the longest run of digits. */
  function ParseSigned(u: string): Option<int>
  {
    SignedValue(u != [] && u[0] == '-', DigitPrefix(SignStripped(u)))
  }

  /** The value of the digits `d`, negated after a minus sign; no digits give NaN (None). */
  function SignedValue(negative: bool, d: string): Option<int>
    requires forall i :: 0 <= i < |d| ==> IsDigit(d[i])
  {
    if d == [] then None
    else
      var magnitude: int := DigitsValue(d);
      Some(if negative then -magnitude else magnitude)
  }

  function SignStripped(u: string): string {
    if u != [] && (u[0] == '-' || u[0] == '+') then u[1..] else u
  }

  /** The decimal text of a natural number, as `String(n)` writes it. */
  function DecimalString(n: nat): (s: string)
    ensures s != [] && forall i :: 0 <= i < |s| ==> IsDigit(s[i])
  {
    if n < 10 then [DigitChar(n)] else DecimalString(n / 10) + [DigitChar(n % 10)]
  }

  /** The text of any integer, with a leading minus sign when negative. */
  function IntString(n: int): string {
    if n < 0 then "-" + DecimalString(-n) else DecimalString(n)
  }

  lemma {:induction false} DecimalStringValue(n: nat)
    ensures DigitsValue(DecimalString(n)) == n
  {
    var s := DecimalString(n);
    if n >= 10 {
      DecimalStringValue(n / 10);
      assert s[..|s| - 1] == DecimalString(n / 10);
    }
  }

  lemma {:induction false} DigitPrefixOfDigits(s: string)
    requires forall i :: 0 <= i < |s| ==> IsDigit(s[i])
    ensures DigitPrefix(s) == s
  {
    if s != [] {
      DigitPrefixOfDigits(s[1..]);
    }
  }

  /** `parseInt` starts reading where no white space precedes. */
  lemma ParseIntOfTrimmed(s: string)
    requires TrimStart(s) == s
    ensures ParseInt(s) == ParseSigned(s)
  {
  }

  /** After an optional sign, `parseInt` reads exactly the given run of digits. */
  lemma ParseSignedOfDigits(s: string, digits: string)
    requires digits != [] && forall i :: 0 <= i < |digits| ==> IsDigit(digits[i])
    requires SignStripped(s) == digits && DigitPrefix(digits) == digits
    ensures s != [] && ParseSigned(s) == SignedValue(s[0] == '-', digits)
  {
  }

  /** A non-empty run of digits has a value, negated after a minus sign. */
  lemma SignedValueOfDigits(negative: bool, digits: string)
    requires digits != [] && forall i :: 0 <= i < |digits| ==> IsDigit(digits[i])
    ensures var v: int := DigitsValue(digits); SignedValue(negative, digits) == Some(if negative then -v else v)
  {
  }

  /** A run of digits has no white space to skip and no sign to strip. */
  lemma DigitsUntouched(digits: string)
    requires digits != [] && forall i :: 0 <= i < |digits| ==> IsDigit(digits[i])
    ensures TrimStart(digits) == digits && SignStripped(digits) == digits
  {
    assert IsDigit(digits[0]);
  }

  /** A run of digits parses to its value. */
  lemma ParseIntOfDigits(digits: string)
    requires digits != [] && forall i :: 0 <= i < |digits| ==> IsDigit(digits[i])
    ensures var v: int := DigitsValue(digits); ParseInt(digits) == Some(v)
  {
    DigitPrefixOfDigits(digits);
    DigitsUntouched(digits);
    ParseIntOfTrimmed(digits);
    ParseSignedOfDigits(digits, digits);
    assert IsDigit(digits[0]);
    SignedValueOfDigits(false, digits);
  }

  /** A minus sign before any text has no white space to skip, and stripping it gives the text back. */
  lemma NegatedDigitsUntouched(digits: string)
    ensures TrimStart("-" + digits) == "-" + digits
    ensures ("-" + digits)[0] == '-' && SignStripped("-" + digits) == digits
  {
    assert ("-" + digits)[1..] == digits;
  }

  /** A minus sign followed by a run of digits parses to the negated value. */
  lemma ParseIntOfNegatedDigits(digits: string)
    requires digits != [] && forall i :: 0 <= i < |digits| ==> IsDigit(digits[i])
    ensures var v: int := DigitsValue(digits); ParseInt("-" + digits) == Some(-v)
  {
    DigitPrefixOfDigits(digits);
    NegatedDigitsUntouched(digits);
    ParseIntOfTrimmed("-" + digits);
    ParseSignedOfDigits("-" + digits, digits);
    SignedValueOfDigits(true, digits);
  }

  /** Reading back the text of an integer gives the integer. */
  lemma ParseIntString(n: int)
    ensures ParseInt(IntString(n)) == Some(n)
  {
    var m: nat := if n < 0 then -n else n;
    DecimalStringValue(m);
    if n < 0 {
      ParseIntOfNegatedDigits(DecimalString(m));
    } else {
      ParseIntOfDigits(DecimalString(m));
    }
  }

}
