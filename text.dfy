/** The JavaScript string primitives the booking code leans on: decimal digits,
    `String(n)`, `Number(s)`, `parseInt(s, 10)`, `s.includes(p)`, `s.split(':')`
    and the `<` / `>=` comparison of two strings. */
module Text {
  import opened Wrappers

  predicate IsDigit(c: char) {
    '0' <= c <= '9'
  }

  function DigitValue(c: char): (v: nat)
    requires IsDigit(c)
    ensures v < 10
  {
    c as int - '0' as int
  }

  function DigitChar(v: nat): (c: char)
    requires v < 10
    ensures IsDigit(c) && DigitValue(c) == v
  {
    ('0' as int + v) as char
  }

  predicate AllDigits(s: string) {
    forall i :: 0 <= i < |s| ==> IsDigit(s[i])
  }

  /** The value of a string of decimal digits, most significant digit first. */
  function DecimalValue(s: string): nat
    requires AllDigits(s)
  {
    if s == [] then 0 else 10 * DecimalValue(s[..|s| - 1]) + DigitValue(s[|s| - 1])
  }

  /** `String(n)` for a non-negative integer: the shortest decimal numeral. */
  function DecimalString(n: nat): (s: string)
    ensures 1 <= |s| && AllDigits(s)
    ensures |s| > 1 ==> s[0] != '0'
    ensures n < 10 ==> |s| == 1
    ensures 10 <= n < 100 ==> |s| == 2
  {
    if n < 10 then [DigitChar(n)] else DecimalString(n / 10) + [DigitChar(n % 10)]
  }

  /** Reading back what `DecimalString` wrote gives the number again. */
  lemma {:induction false} DecimalRoundTrip(n: nat)
    ensures DecimalValue(DecimalString(n)) == n
  {
    if n >= 10 {
      DecimalRoundTrip(n / 10);
      var s := DecimalString(n);
      assert s[..|s| - 1] == DecimalString(n / 10);
    }
  }

  /** `String(i)` for any integer (no exponent notation: the model never
      formats numbers of 21 digits or more). */
  function IntString(i: int): (s: string)
    ensures |s| >= 1
  {
    if i >= 0 then DecimalString(i) else ['-'] + DecimalString(-i)
  }

  /** The text `String(i)` writes reads back as `i`: digits without a leading
      zero, after a minus sign when `i` is negative. */
  lemma IntStringReadsBack(i: int)
    ensures var s := IntString(i);
      && (i >= 0 ==> AllDigits(s) && DecimalValue(s) == i && (|s| > 1 ==> s[0] != '0'))
      && (i < 0 ==> |s| >= 2 && s[0] == '-' && AllDigits(s[1..]) && DecimalValue(s[1..]) == -i)
  {
    if i >= 0 {
      DecimalRoundTrip(i);
    } else {
      DecimalRoundTrip(-i);
      assert IntString(i)[1..] == DecimalString(-i);
    }
  }

  /** JavaScript's `a < b` on two strings: the first differing character
      decides, and a proper prefix is smaller. */
  predicate LexLess(a: string, b: string)
    decreases |a|
  {
    if b == [] then false
    else if a == [] then true
    else if a[0] != b[0] then a[0] < b[0]
    else LexLess(a[1..], b[1..])
  }

  /** `s.includes(p)`: some window of `s` equals `p`. */
  predicate Contains(s: string, p: string)
    decreases |s|
  {
    if |s| < |p| then false
    else s[..|p|] == p || (|s| > 0 && Contains(s[1..], p))
  }

  /** A string none of whose characters is the first character of `p` does not contain `p`. */
  lemma {:induction false} ContainsNeedsFirstChar(s: string, p: string)
    requires |p| > 0
    requires forall i :: 0 <= i < |s| ==> s[i] != p[0]
    ensures !Contains(s, p)
  {
    if |s| >= |p| {
      assert s[..|p|][0] == s[0];
      ContainsNeedsFirstChar(s[1..], p);
    }
  }

  /** The position of the first `c` in `s`, or `|s|` when `s` has none. */
  function IndexOf(s: string, c: char): (k: nat)
    ensures k <= |s|
    ensures forall i :: 0 <= i < k ==> s[i] != c
    ensures k < |s| ==> s[k] == c
  {
    if s == [] || s[0] == c then 0 else 1 + IndexOf(s[1..], c)
  }

  /** `IndexOf` finds the first occurrence, or the end when there is none. */
  lemma {:induction false} IndexOfFirst(s: string, c: char, k: nat)
    requires k <= |s| && (k < |s| ==> s[k] == c)
    requires forall i :: 0 <= i < k ==> s[i] != c
    ensures IndexOf(s, c) == k
  {
    if k > 0 {
      IndexOfFirst(s[1..], c, k - 1);
    }
  }

  /** `s.split(':')[0]`: everything before the first colon. */
  function FirstField(s: string): (f: string)
    ensures f <= s && ':' !in f
    ensures |f| < |s| ==> s[|f|] == ':'
  {
    s[..IndexOf(s, ':')]
  }

  /** `s.split(':')[1]`: the text between the first and the second colon,
      or nothing (`undefined`) when `s` has no colon at all. */
  function SecondField(s: string): (f: Option<string>)
    ensures f.None? <==> ':' !in s
    ensures f.Some? ==> ':' !in f.value
    ensures f.Some? ==>
      s[..|FirstField(s)| + 1] == FirstField(s) + [':'] && f.value <= s[|FirstField(s)| + 1..]
    ensures f.Some? ==>
      var rest := s[|FirstField(s)| + 1..];
      |f.value| < |rest| ==> rest[|f.value|] == ':'
  {
    var k := IndexOf(s, ':');
    if k == |s| then None else Some(FirstField(s[k + 1..]))
  }

  /** The length of the longest prefix of `s` made of decimal digits. */
  function DigitPrefixLength(s: string): (k: nat)
    ensures k <= |s| && AllDigits(s[..k])
    ensures k < |s| ==> !IsDigit(s[k])
  {
    if s == [] || !IsDigit(s[0]) then 0
    else
      var k := 1 + DigitPrefixLength(s[1..]);
      assert s[..k] == [s[0]] + s[1..][..k - 1];
      k
  }

  /** `Number(s)` for the strings a time input produces: the empty string is 0,
      a string of digits is its value, anything else is `NaN` (here `None`). */
  function NumberValue(s: string): Option<int> {
    if AllDigits(s) then Some(DecimalValue(s)) else None
  }

  /** Unsigned part of `parseInt(s, 10)`: the leading digits, `NaN` when there are none. */
  function ParseDigits(s: string): (v: Option<nat>)
    ensures v.None? <==> s == [] || !IsDigit(s[0])
    ensures AllDigits(s) && s != [] ==> v == Some(DecimalValue(s))
  {
    var k := DigitPrefixLength(s);
    assert AllDigits(s) ==> k == |s| && s[..k] == s;
    if k == 0 then None else Some(DecimalValue(s[..k]))
  }

  /** `parseInt(s, 10)`: an optional sign, then the leading decimal digits;
      `NaN` (here `None`) when no digit follows the sign. */
  function ParseInt(s: string): (v: Option<int>)
    ensures AllDigits(s) && s != [] ==> v == Some(DecimalValue(s))
    ensures v.Some? && v.value < 0 ==> s != [] && s[0] == '-'
  {
    if s != [] && (s[0] == '-' || s[0] == '+') then
      match ParseDigits(s[1..])
      case None => None
      case Some(n) => var m: int := n; Some(if s[0] == '-' then -m else m)
    else
      match ParseDigits(s)
      case None => None
      case Some(n) => Some(n)
  }

  /** JavaScript's `%` on integers: the remainder takes the sign of the dividend. */
  function JsRem(a: int, b: int): (r: int)
    requires b > 0
    ensures -b < r < b
    ensures a >= 0 ==> r == a % b
    ensures a < 0 ==> r <= 0 && (-r) == (-a) % b
  {
    if a >= 0 then a % b else -((-a) % b)
  }
}
