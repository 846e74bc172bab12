/** An optional value: what a lookup returns when it may find nothing. */
module Optional {
  datatype Option<T> = None | Some(value: T)
}

/**
 * The loosely typed values the plugin reads from request data and from
 * stored options, and the PHP conversions it applies to them: truthiness
 * (`if ($v)`, `!empty($v)`), the `(int)` cast, loose comparison with an
 * integer, and `sprintf('%d', ...)`.
 */
module PhpValue {

  datatype Value =
    | Null
    | Bool(b: bool)
    | Int(i: int)
    | Str(s: string)
    | List(items: seq<Value>)

  /** PHP truthiness: what `if ($v)` accepts and `!empty($v)` reports. */
  predicate Truthy(v: Value) {
    match v
    case Null => false
    case Bool(b) => b
    case Int(i) => i != 0
    case Str(s) => s != "" && s != "0"
    case List(items) => items != []
  }

  predicate IsDigit(c: char) {
    '0' <= c <= '9'
  }

  predicate AllDigits(s: string) {
    forall k :: 0 <= k < |s| ==> IsDigit(s[k])
  }

  predicate IsSpace(c: char) {
    c == ' ' || c == '\t' || c == '\n' || c == '\r' || c == '\U{000B}' || c == '\U{000C}'
  }

  function DigitValue(c: char): (d: nat)
    requires IsDigit(c)
    ensures d < 10
  {
    c as int - '0' as int
  }

  function DigitChar(d: nat): (c: char)
    requires d < 10
    ensures IsDigit(c) && DigitValue(c) == d
  {
    ('0' as int + d) as char
  }

  /** The number a string of decimal digits denotes (most significant first). */
  function DigitsValue(s: string): nat
    requires AllDigits(s)
  {
    if s == [] then 0 else DigitsValue(s[..|s| - 1]) * 10 + DigitValue(s[|s| - 1])
  }

  /** The decimal digits of a natural number, without leading zeros. */
  function NatToString(n: nat): (s: string)
    ensures |s| > 0 && AllDigits(s)
  {
    if n < 10 then [DigitChar(n)] else NatToString(n / 10) + [DigitChar(n % 10)]
  }

  /** `sprintf('%d', i)`: an optional minus sign, then the digits. */
  function IntToString(i: int): (s: string)
    ensures |s| > 0
    ensures forall k :: 0 <= k < |s| ==> IsDigit(s[k]) || (k == 0 && s[k] == '-')
  {
    if i < 0 then "-" + NatToString(-i) else NatToString(i)
  }

  /** The longest prefix of `s` made of decimal digits. */
  function LeadingDigits(s: string): (d: string)
    ensures |d| <= |s| && d == s[..|d|] && AllDigits(d)
    ensures |d| < |s| ==> !IsDigit(s[|d|])
  {
    if s != [] && IsDigit(s[0]) then [s[0]] + LeadingDigits(s[1..]) else []
  }

  function SkipSpace(s: string): (t: string)
    ensures t == [] || !IsSpace(t[0])
  {
    if s != [] && IsSpace(s[0]) then SkipSpace(s[1..]) else s
  }

  /**
   * PHP 5's `(int)` cast of a string, which is also the number a string
   * stands for when it is compared with an integer: leading white space is
   * skipped, an optional sign is read, then as many decimal digits as
   * follow; anything after them is ignored and no digits at all give 0.
   */
  function StrToInt(s: string): int {
    var t := SkipSpace(s);
    if t != [] && t[0] == '-' then 0 - DigitsValue(LeadingDigits(t[1..])) as int
    else if t != [] && t[0] == '+' then DigitsValue(LeadingDigits(t[1..]))
    else DigitsValue(LeadingDigits(t))
  }

  /** PHP's `(int)` cast. */
  function ToInt(v: Value): int {
    match v
    case Null => 0
    case Bool(b) => if b then 1 else 0
    case Int(i) => i
    case Str(s) => StrToInt(s)
    case List(items) => if items == [] then 0 else 1
  }

  /**
   * PHP 5's loose comparison `$v == $n` against an integer: null and
   * booleans compare as booleans, strings as the number they start with,
   * and an array is never equal to an integer.
   */
  predicate LooseEqualsInt(v: Value, n: int) {
    match v
    case Null => n == 0
    case Bool(b) => b == (n != 0)
    case Int(i) => i == n
    case Str(s) => StrToInt(s) == n
    case List(_) => false
  }

  /**
   * PHP 5's `$v < 0`: null and booleans compare as booleans (never below
   * false), strings as the number they start with, and an array is always
   * the greater.
   */
  predicate LooseBelowZero(v: Value) {
    match v
    case Null => false
    case Bool(_) => false
    case Int(i) => i < 0
    case Str(s) => StrToInt(s) < 0
    case List(_) => false
  }

  /** Unless `v` is an array, `$v != $n` means the cast of `v` is not `n`. */
  lemma LooseUnequalCast(v: Value, n: int)
    requires !v.List? && !LooseEqualsInt(v, n)
    ensures ToInt(v) != n
  {
  }

  lemma {:induction false} LeadingDigitsOfDigits(s: string)
    requires AllDigits(s)
    ensures LeadingDigits(s) == s
  {
    if s != [] {
      LeadingDigitsOfDigits(s[1..]);
    }
  }

  lemma {:induction false} NatToStringRoundTrip(n: nat)
    ensures DigitsValue(NatToString(n)) == n
  {
    var s := NatToString(n);
    if n >= 10 {
      NatToStringRoundTrip(n / 10);
      assert s[..|s| - 1] == NatToString(n / 10);
    }
  }

  lemma StrToIntOfDigits(d: string)
    requires |d| > 0 && AllDigits(d)
    ensures StrToInt(d) == DigitsValue(d)
  {
    assert !IsSpace(d[0]) && d[0] != '-' && d[0] != '+';
    assert SkipSpace(d) == d;
    LeadingDigitsOfDigits(d);
  }

  lemma StrToIntOfNegative(d: string)
    requires |d| > 0 && AllDigits(d)
    ensures StrToInt("-" + d) == 0 - DigitsValue(d) as int
  {
    var s := "-" + d;
    assert !IsSpace(s[0]);
    assert SkipSpace(s) == s;
    assert s[1..] == d;
    LeadingDigitsOfDigits(d);
  }

  /** Reading back what `sprintf('%d', i)` wrote gives `i`. */
  lemma IntToStringRoundTrip(i: int)
    ensures StrToInt(IntToString(i)) == i
    ensures StrToInt(IntToString(i)) == ToInt(Str(IntToString(i)))
  {
    if i < 0 {
      StrToIntOfNegative(NatToString(-i));
      NatToStringRoundTrip(-i);
    } else {
      StrToIntOfDigits(NatToString(i));
      NatToStringRoundTrip(i);
    }
  }
}
