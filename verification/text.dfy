/** String helpers of the plugin (`isBlank`, `getValidName`) and the small part of
    `java.lang.String`, `Character`, `Integer` and `Boolean` they rely on.

    Characters are Dafny `char`s; case mapping is restricted to ASCII.
 */
module Text {
  import opened Wrappers

  /** `Character.isWhitespace`: the ASCII controls TAB..CR and FS..US, the space,
      and the Unicode space, line and paragraph separators except the
      non-breaking ones (U+00A0, U+2007, U+202F). */
  predicate IsWhitespace(c: char) {
    || c == ' '
    || ('\t' <= c <= '\r')
    || ('\U{001C}' <= c <= '\U{001F}')
    || c == '\U{1680}'
    || ('\U{2000}' <= c <= '\U{2006}')
    || ('\U{2008}' <= c <= '\U{200A}')
    || c == '\U{2028}' || c == '\U{2029}' || c == '\U{205F}' || c == '\U{3000}'
  }

  ghost predicate AllWhitespace(s: string) {
    forall i :: 0 <= i < |s| ==> IsWhitespace(s[i])
  }

  /** The scan of `isBlank`, from index `i` on: false at the first non-whitespace character. */
  function BlankFrom(s: string, i: nat): (r: bool)
    requires i <= |s|
    ensures r <==> forall j :: i <= j < |s| ==> IsWhitespace(s[j])
    decreases |s| - i
  {
    if i == |s| then true
    else if !IsWhitespace(s[i]) then false
    else BlankFrom(s, i + 1)
  }

  /** `KnativeUtils.isBlank`: a null string (None) is blank too. */
  function IsBlank(s: Option<string>): (r: bool)
    ensures r <==> (s.None? || AllWhitespace(s.value))
  {
    match s
    case None => true
    case Some(v) => BlankFrom(v, 0)
  }

  predicate IsUpperAscii(c: char) {
    'A' <= c <= 'Z'
  }

  /** `Character.toLowerCase`, restricted to ASCII letters. */
  function ToLowerAscii(c: char): (r: char)
    ensures !IsUpperAscii(r)
    ensures IsUpperAscii(c) ==> r as int == c as int + 32
    ensures !IsUpperAscii(c) ==> r == c
  {
    if IsUpperAscii(c) then (c as int + 32) as char else c
  }

  /** One character of `getValidName`: lower-case it, then map `_` and `.` to `-`. */
  function NameChar(c: char): char {
    var l := ToLowerAscii(c);
    if l == '_' || l == '.' then '-' else l
  }

  /** The characters `getValidName` never produces. */
  predicate IsNameChar(c: char) {
    !IsUpperAscii(c) && c != '_' && c != '.'
  }

  ghost predicate IsValidName(s: string) {
    forall i :: 0 <= i < |s| ==> IsNameChar(s[i])
  }

  /** `KnativeUtils.getValidName`: the result has the input's length, contains no
      upper-case letter, `_` or `.`, and every other character is kept. */
  function ValidName(s: string): (r: string)
    ensures |r| == |s|
    ensures IsValidName(r)
    ensures forall i :: 0 <= i < |s| && IsNameChar(s[i]) ==> r[i] == s[i]
    ensures forall i :: 0 <= i < |s| && (s[i] == '_' || s[i] == '.') ==> r[i] == '-'
    ensures forall i :: 0 <= i < |s| && IsUpperAscii(s[i]) ==> r[i] as int == s[i] as int + 32
  {
    seq(|s|, i requires 0 <= i < |s| => NameChar(s[i]))
  }

  /** A valid name is a fixed point of the normalisation. */
  lemma ValidNameFixesValidNames(s: string)
    requires IsValidName(s)
    ensures ValidName(s) == s
  {
  }

  /** `getValidName` is idempotent. */
  lemma ValidNameIdempotent(s: string)
    ensures ValidName(ValidName(s)) == ValidName(s)
  {
    ValidNameFixesValidNames(ValidName(s));
  }

  /** True when `pat` occurs in `s` at index `i`. */
  predicate OccursAt(s: string, pat: string, i: nat) {
    i + |pat| <= |s| && s[i..i + |pat|] == pat
  }

  /** `String.indexOf(pat, from)`: the first occurrence at or after `from`, or -1. */
  function IndexOf(s: string, pat: string, from: nat): (r: int)
    ensures r == -1 || (from <= r && OccursAt(s, pat, r))
    ensures r == -1 ==> forall j :: from <= j <= |s| ==> !OccursAt(s, pat, j)
    ensures r != -1 ==> forall j :: from <= j < r ==> !OccursAt(s, pat, j)
    decreases |s| - from
  {
    if from + |pat| > |s| then -1
    else if s[from..from + |pat|] == pat then from
    else IndexOf(s, pat, from + 1)
  }

  /** `String.lastIndexOf(c)`: the last index holding `c`, or -1. */
  function LastIndexOf(s: string, c: char): (r: int)
    ensures -1 <= r < |s|
    ensures r >= 0 ==> s[r] == c
    ensures forall j :: r < j < |s| ==> s[j] != c
  {
    if |s| == 0 then -1
    else if s[|s| - 1] == c then |s| - 1
    else LastIndexOf(s[..|s| - 1], c)
  }

  /** The first index from `i` on whose character is above U+0020, or `|s|`. */
  function TrimLo(s: string, i: nat): (lo: nat)
    requires i <= |s|
    ensures i <= lo <= |s|
    ensures forall j :: i <= j < lo ==> s[j] <= ' '
    ensures lo < |s| ==> s[lo] > ' '
    decreases |s| - i
  {
    if i == |s| || s[i] > ' ' then i else TrimLo(s, i + 1)
  }

  /** One past the last index below `j` whose character is above U+0020, or `lo`. */
  function TrimHi(s: string, lo: nat, j: nat): (hi: nat)
    requires lo <= j <= |s|
    ensures lo <= hi <= j
    ensures forall k :: hi <= k < j ==> s[k] <= ' '
    ensures hi > lo ==> s[hi - 1] > ' '
  {
    if j == lo || s[j - 1] > ' ' then j else TrimHi(s, lo, j - 1)
  }

  /** `String.trim`: strips leading and trailing characters up to U+0020. */
  function Trim(s: string): (r: string)
    ensures |r| <= |s|
  {
    var lo := TrimLo(s, 0);
    s[lo..TrimHi(s, lo, |s|)]
  }

  /** What `trim` keeps is one slice of the input that starts and ends above U+0020
      and holds every character above U+0020. */
  lemma TrimKeepsVisibleCore(s: string)
    ensures var r := Trim(s);
      && (|r| > 0 ==> r[0] > ' ' && r[|r| - 1] > ' ')
      && (forall i :: 0 <= i < |s| && s[i] > ' ' ==> TrimLo(s, 0) <= i < TrimHi(s, TrimLo(s, 0), |s|))
      && r == s[TrimLo(s, 0)..TrimHi(s, TrimLo(s, 0), |s|)]
  {
  }

  /** `String.indexOf(c, from)` for a one-character pattern. */
  function IndexOfChar(s: string, c: char, from: nat): (r: int)
    ensures r == -1 || (from <= r < |s| && s[r] == c)
    ensures forall j :: from <= j < |s| && (r == -1 || j < r) ==> s[j] != c
    decreases |s| - from
  {
    if from >= |s| then -1
    else if s[from] == c then from
    else IndexOfChar(s, c, from + 1)
  }

  /** `String.toLowerCase`, restricted to ASCII letters. */
  function ToLowerString(s: string): (r: string)
    ensures |r| == |s| && forall i :: 0 <= i < |s| ==> r[i] == ToLowerAscii(s[i])
  {
    if |s| == 0 then "" else [ToLowerAscii(s[0])] + ToLowerString(s[1..])
  }

  /** `Boolean.parseBoolean`: true exactly for "true" in any (ASCII) case. */
  function ParseBoolean(s: string): (r: bool)
    ensures r <==> ToLowerString(s) == "true"
  {
    |s| == 4 && ToLowerAscii(s[0]) == 't' && ToLowerAscii(s[1]) == 'r'
    && ToLowerAscii(s[2]) == 'u' && ToLowerAscii(s[3]) == 'e'
  }

  const IntMin: int := -0x8000_0000
  const IntMax: int := 0x7FFF_FFFF

  predicate IsDigit(c: char) {
    '0' <= c <= '9'
  }

  ghost predicate AllDigits(s: string) {
    forall i :: 0 <= i < |s| ==> IsDigit(s[i])
  }

  /** The value of a string of decimal digits, most significant first. */
  function DigitsValue(s: string): (n: nat)
    requires AllDigits(s)
  {
    if |s| == 0 then 0
    else DigitsValue(s[..|s| - 1]) * 10 + (s[|s| - 1] as int - '0' as int)
  }

  /** The decimal numeral of a natural number, without leading zeros. */
  function ShowNat(n: nat): (s: string)
    ensures |s| > 0 && AllDigits(s)
  {
    var d := [(n % 10 + '0' as int) as char];
    if n < 10 then d else ShowNat(n / 10) + d
  }

  lemma {:induction false} DigitsOfShowNat(n: nat)
    ensures DigitsValue(ShowNat(n)) == n
  {
    var s := ShowNat(n);
    if n >= 10 {
      DigitsOfShowNat(n / 10);
      assert s[..|s| - 1] == ShowNat(n / 10);
    }
  }

  function NumberFormatError<T>(s: string): Result<T> {
    Err(Failure(NumberFormat, "For input string: \"" + s + "\""))
  }

  /** `Integer.parseInt` in radix 10 over ASCII digits: an optional sign, at least one
      digit, and a value within the 32-bit range; anything else is a NumberFormatException. */
  function ParseInt(s: string): (r: Result<int>)
    ensures r.Ok? ==> IntMin <= r.value <= IntMax
    ensures r.Err? ==> r.error.kind == NumberFormat
  {
    if |s| == 0 then NumberFormatError(s)
    else
      var negative := s[0] == '-';
      var digits := if s[0] == '-' || s[0] == '+' then s[1..] else s;
      if |digits| == 0 || exists i :: 0 <= i < |digits| && !IsDigit(digits[i]) then NumberFormatError(s)
      else
        var v: int := if negative then -(DigitsValue(digits) as int) else DigitsValue(digits);
        if IntMin <= v <= IntMax then Ok(v) else NumberFormatError(s)
  }

  /** Parsing the numeral of an in-range natural number gives that number back. */
  lemma ParseShowNat(n: nat)
    requires n <= IntMax
    ensures ParseInt(ShowNat(n)) == Ok(n)
  {
    var s := ShowNat(n);
    DigitsOfShowNat(n);
    assert s[0] != '-' && s[0] != '+' by { assert IsDigit(s[0]); }
  }

  /** Parsing `-` followed by the numeral of `n` gives `-n`, down to the 32-bit minimum. */
  lemma ParseNegativeShowNat(n: nat)
    requires -(n as int) >= IntMin
    ensures ParseInt("-" + ShowNat(n)) == Ok(-(n as int))
  {
    var s := "-" + ShowNat(n);
    DigitsOfShowNat(n);
    assert s[1..] == ShowNat(n);
  }
}
