/**
 * JavaScript attribute values and the string operations that main.js applies
 * to them: `String(v)`, truthiness, `trim()`, `toLowerCase()` and `includes`.
 */
module Values {

  datatype Option<T> = None | Some(value: T)

  /**
   * An attribute value of a GeoJSON feature. `Null` stands for both `null`
   * and `undefined` (a key the feature does not have): every expression in
   * main.js that reads an attribute treats the two alike.
   */
  datatype Value = Null | Str(s: string) | Num(n: SafeInteger) | Bool(b: bool)

  /** `Number.MAX_SAFE_INTEGER`, 2^53 - 1. */
  const MAX_SAFE_INTEGER: int := 0x1F_FFFF_FFFF_FFFF

  /**
   * The integers a JavaScript number holds exactly. Their `String` is the
   * plain decimal numeral: the exponent form starts at 10^21.
   */
  type SafeInteger = n: int | -MAX_SAFE_INTEGER <= n <= MAX_SAFE_INTEGER

  /** JavaScript truthiness of an attribute value. */
  predicate Truthy(v: Value)
  {
    match v
    case Null => false
    case Str(s) => s != ""
    case Num(n) => n != 0
    case Bool(b) => b
  }

  function DigitChar(d: nat): (c: char)
    requires d < 10
    ensures '0' <= c <= '9'
  {
    "0123456789"[d]
  }

  /** Decimal rendering of a natural number, as `String(n)` writes it. */
  function NatToString(n: nat): (r: string)
    ensures |r| > 0
    ensures forall i :: 0 <= i < |r| ==> '0' <= r[i] <= '9'
  {
    if n < 10 then [DigitChar(n)] else NatToString(n / 10) + [DigitChar(n % 10)]
  }

  function IntToString(n: int): string
  {
    if n < 0 then "-" + NatToString(-n) else NatToString(n)
  }

  /** `String(v)`. */
  function ToStr(v: Value): string
  {
    match v
    case Null => "null"
    case Str(s) => s
    case Num(n) => IntToString(n)
    case Bool(b) => if b then "true" else "false"
  }

  function Pow10(k: nat): nat
  {
    if k == 0 then 1 else 10 * Pow10(k - 1)
  }

  /** A number below 10^k is written with at most k digits. */
  lemma {:induction false} NatToStringLength(n: nat, k: nat)
    requires 0 < k && n < Pow10(k)
    ensures |NatToString(n)| <= k
  {
    if n >= 10 {
      assert 1 <= n / 10 < Pow10(k - 1);
      NatToStringLength(n / 10, k - 1);
    }
  }

  /** A safe integer is written with at most 16 digits and a sign, far from the exponent form of 21 digits. */
  lemma SafeIntegerIsPlainDecimal(n: SafeInteger)
    ensures |IntToString(n)| <= 17
  {
    assert Pow10(16) == 10000000000000000 by {
      assert Pow10(4) == 10000;
      assert Pow10(8) == 100000000;
      assert Pow10(12) == 1000000000000;
    }
    NatToStringLength(if n < 0 then -n else n, 16);
  }

  /** `v != null && String(v).trim()`: a value that is present and not blank. */
  predicate NonBlank(v: Value)
  {
    !v.Null? && Trim(ToStr(v)) != ""
  }

  /** `(v ?? '').toString()`. */
  function TextOrEmpty(v: Value): string
  {
    if v.Null? then "" else ToStr(v)
  }

  /** The characters `String.prototype.trim` removes: ECMAScript WhiteSpace and LineTerminator. */
  const WHITESPACE: set<char> := {
    '\t', '\n', '\U{000B}', '\U{000C}', '\r', ' ', '\U{00A0}', '\U{1680}',
    '\U{2000}', '\U{2001}', '\U{2002}', '\U{2003}', '\U{2004}', '\U{2005}',
    '\U{2006}', '\U{2007}', '\U{2008}', '\U{2009}', '\U{200A}',
    '\U{2028}', '\U{2029}', '\U{202F}', '\U{205F}', '\U{3000}', '\U{FEFF}'
  }

  predicate IsWhitespace(c: char)
  {
    c in WHITESPACE
  }

  predicate Blank(s: string)
  {
    forall i :: 0 <= i < |s| ==> IsWhitespace(s[i])
  }

  /** The length of the whitespace run that starts `s`. */
  function LeadingBlank(s: string): (n: nat)
    ensures n <= |s|
  {
    if |s| > 0 && IsWhitespace(s[0]) then 1 + LeadingBlank(s[1..]) else 0
  }

  /** The leading run is whitespace and ends at a character that is not. */
  lemma {:induction false} LeadingBlankSpec(s: string)
    ensures forall i :: 0 <= i < LeadingBlank(s) ==> IsWhitespace(s[i])
    ensures LeadingBlank(s) == |s| || !IsWhitespace(s[LeadingBlank(s)])
  {
    if |s| > 0 && IsWhitespace(s[0]) {
      LeadingBlankSpec(s[1..]);
    }
  }

  /** The length of the whitespace run that ends `s`. */
  function TrailingBlank(s: string): (n: nat)
    ensures n <= |s|
  {
    if |s| > 0 && IsWhitespace(s[|s| - 1]) then 1 + TrailingBlank(s[..|s| - 1]) else 0
  }

  /** The trailing run is whitespace and starts after a character that is not. */
  lemma {:induction false} TrailingBlankSpec(s: string)
    ensures forall i :: |s| - TrailingBlank(s) <= i < |s| ==> IsWhitespace(s[i])
    ensures TrailingBlank(s) == |s| || !IsWhitespace(s[|s| - TrailingBlank(s) - 1])
  {
    if |s| > 0 && IsWhitespace(s[|s| - 1]) {
      TrailingBlankSpec(s[..|s| - 1]);
    }
  }

  /** Removes leading whitespace. */
  function TrimStart(s: string): string
  {
    s[LeadingBlank(s)..]
  }

  /** Removes trailing whitespace. */
  function TrimEnd(s: string): string
  {
    s[..|s| - TrailingBlank(s)]
  }

  /** `s.trim()`. */
  function Trim(s: string): string
  {
    TrimEnd(TrimStart(s))
  }

  /** Lower-casing of one character: ASCII and Latin-1 capitals. */
  function LowerChar(c: char): char
  {
    if 'A' <= c <= 'Z' || ('\U{00C0}' <= c <= '\U{00DE}' && c != '\U{00D7}')
    then (c as int + 32) as char
    else c
  }

  /** `s.toLowerCase()`, character by character. */
  function Lower(s: string): (r: string)
  {
    seq(|s|, i requires 0 <= i < |s| => LowerChar(s[i]))
  }

  predicate StartsWith(s: string, prefix: string)
  {
    |prefix| <= |s| && s[..|prefix|] == prefix
  }

  /** `s.includes(sub)`: `sub` occurs in `s` at some position. */
  function Contains(s: string, sub: string): (r: bool)
    ensures r <==> exists i :: 0 <= i <= |s| - |sub| && StartsWith(s[i..], sub)
    decreases |s|
  {
    if StartsWith(s, sub) then
      assert StartsWith(s[0..], sub);
      true
    else if |s| == 0 then
      false
    else
      var r := Contains(s[1..], sub);
      assert forall i :: 1 <= i <= |s| ==> s[i..] == s[1..][i - 1..];
      r
  }

  // ---- Facts about trimming and lower-casing ----

  lemma {:induction false} TrimStartOfBlankPrefix(w: string, x: string)
    requires Blank(w)
    ensures TrimStart(w + x) == TrimStart(x)
    decreases |w|
  {
    if |w| > 0 {
      assert (w + x)[1..] == w[1..] + x;
      TrimStartOfBlankPrefix(w[1..], x);
    } else {
      assert w + x == x;
    }
  }

  lemma {:induction false} TrimEndOfBlankSuffix(x: string, w: string)
    requires Blank(w)
    ensures TrimEnd(x + w) == TrimEnd(x)
    decreases |w|
  {
    if |w| > 0 {
      assert (x + w)[..|x + w| - 1] == x + w[..|w| - 1];
      TrimEndOfBlankSuffix(x, w[..|w| - 1]);
    } else {
      assert x + w == x;
    }
  }

  lemma {:induction false} TrimStartOfNonBlank(s: string, t: string)
    requires !Blank(s)
    ensures TrimStart(s + t) == TrimStart(s) + t
    decreases |s|
  {
    if IsWhitespace(s[0]) {
      assert (s + t)[1..] == s[1..] + t;
      TrimStartOfNonBlank(s[1..], t);
    }
  }

  lemma BlankTrimStart(s: string)
    requires Blank(s)
    ensures TrimStart(s) == ""
  {
    LeadingBlankSpec(s);
  }

  /** Trimming ignores any whitespace padding around a string. */
  lemma TrimIgnoresPadding(w1: string, s: string, w2: string)
    requires Blank(w1) && Blank(w2)
    ensures Trim(w1 + s + w2) == Trim(s)
  {
    assert w1 + s + w2 == w1 + (s + w2);
    TrimStartOfBlankPrefix(w1, s + w2);
    if Blank(s) {
      assert Blank(s + w2);
      BlankTrimStart(s + w2);
      BlankTrimStart(s);
    } else {
      TrimStartOfNonBlank(s, w2);
      TrimEndOfBlankSuffix(TrimStart(s), w2);
    }
  }

  /** A trimmed string is empty exactly when the original is all whitespace. */
  lemma TrimEmptyIffBlank(s: string)
    ensures Trim(s) == "" <==> Blank(s)
  {
    LeadingBlankSpec(s);
    var n, a := LeadingBlank(s), TrimStart(s);
    TrailingBlankSpec(a);
    if Trim(s) == "" {
      assert n == |s|;
    }
    if Blank(s) {
      assert n == |s|;
    }
  }

  lemma LowerCharKeepsWhitespace(c: char)
    ensures IsWhitespace(LowerChar(c)) <==> IsWhitespace(c)
  {
  }

  lemma {:induction false} TrimStartOfLower(s: string)
    ensures TrimStart(Lower(s)) == Lower(TrimStart(s))
    decreases |s|
  {
    if |s| > 0 {
      LowerCharKeepsWhitespace(s[0]);
      assert Lower(s)[1..] == Lower(s[1..]);
      if IsWhitespace(s[0]) {
        TrimStartOfLower(s[1..]);
      }
    }
  }

  lemma {:induction false} TrimEndOfLower(s: string)
    ensures TrimEnd(Lower(s)) == Lower(TrimEnd(s))
    decreases |s|
  {
    if |s| > 0 {
      LowerCharKeepsWhitespace(s[|s| - 1]);
      assert Lower(s)[..|s| - 1] == Lower(s[..|s| - 1]);
      if IsWhitespace(s[|s| - 1]) {
        TrimEndOfLower(s[..|s| - 1]);
      }
    }
  }

  /** Lower-casing and trimming commute, because lower-casing maps whitespace to itself. */
  lemma TrimOfLower(s: string)
    ensures Trim(Lower(s)) == Lower(Trim(s))
  {
    TrimStartOfLower(s);
    TrimEndOfLower(TrimStart(s));
  }

  lemma LowerIdempotent(s: string)
    ensures Lower(Lower(s)) == Lower(s)
  {
  }
}
