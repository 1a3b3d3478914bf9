/**
 * The slice of JavaScript value semantics the front-end's decisions depend on:
 * numbers (with NaN and the infinities), the coercion ToNumber that the `<`
 * comparisons and the multiplication in the chart code apply to server values,
 * `String.prototype.trim`, `Math.round`, and the decimal text of a
 * non-negative integer.  Numbers are exact reals: IEEE-754 rounding is
 * modelled separately, in module DoubleRounding, where it matters.
 */
module JsValues {
  import opened Wrappers

  /** A JavaScript number, without the rounding of doubles. */
  datatype JsNumber = Finite(x: real) | NaN | PosInf | NegInf

  /** A value read from a parsed JSON body (arrays and objects are not modelled). */
  datatype JsValue = JNumber(n: JsNumber) | JUndefined | JNull | JBool(b: bool) | JString(s: string)

  // ---------------------------------------------------------------------------
  // Comparison and arithmetic on numbers
  // ---------------------------------------------------------------------------

  /** The truth of the JavaScript comparison `n < c` for a finite constant `c`. */
  predicate LessThan(n: JsNumber, c: real)
  {
    match n
    case Finite(x) => x < c
    case NaN => false
    case PosInf => false
    case NegInf => true
  }

  /** The truth of the JavaScript comparison `a <= b`. */
  predicate AtMost(a: JsNumber, b: JsNumber)
  {
    match (a, b)
    case (NaN, _) => false
    case (_, NaN) => false
    case (NegInf, _) => true
    case (_, PosInf) => true
    case (Finite(x), Finite(y)) => x <= y
    case (_, _) => false
  }

  /** `n * f` for a finite positive factor `f`. */
  function Scale(n: JsNumber, f: real): (r: JsNumber)
    requires f > 0.0
    ensures n.Finite? <==> r.Finite?
    ensures r.NaN? <==> n.NaN?
    ensures r.Finite? ==> r.x == n.x * f
    ensures r.PosInf? <==> n.PosInf?
  {
    match n
    case Finite(x) => Finite(x * f)
    case _ => n
  }

  /** `Math.round` on a finite number: the integer nearest to `x`, halves rounded up. */
  function Round(x: real): (k: int)
    ensures k as real - 0.5 <= x < k as real + 0.5
  {
    (x + 0.5).Floor
  }

  /** Any integer meeting the nearest-integer condition is `Round(x)`. */
  lemma RoundUnique(x: real, k: int)
    requires k as real - 0.5 <= x < k as real + 0.5
    ensures Round(x) == k
  {
    var r := Round(x);
    assert r as real - 0.5 <= x < r as real + 0.5;
    assert -1.0 < (r - k) as real < 1.0;
  }

  /** `Math.round` on any number: NaN and the infinities come back unchanged. */
  function RoundNumber(n: JsNumber): (r: JsNumber)
    ensures r.Finite? <==> n.Finite?
    ensures r.Finite? ==> r.x == Round(n.x) as real
    ensures !n.Finite? ==> r == n
  {
    match n
    case Finite(x) => Finite(Round(x) as real)
    case _ => n
  }

  /** `Math.max(c, n)` for a finite constant `c`: NaN wins, as in JavaScript. */
  function MaxWith(c: real, n: JsNumber): (r: JsNumber)
    ensures r.NaN? <==> n.NaN?
    ensures r.Finite? ==> r.x >= c && (r.x == c || (n.Finite? && r.x == n.x))
    ensures n.Finite? ==> r == Finite(if n.x < c then c else n.x)
    ensures n.NegInf? ==> r == Finite(c)
    ensures n.PosInf? ==> r == PosInf
  {
    match n
    case Finite(x) => Finite(if x < c then c else x)
    case NegInf => Finite(c)
    case _ => n
  }

  // ---------------------------------------------------------------------------
  // String.prototype.trim
  // ---------------------------------------------------------------------------

  /** ECMAScript's WhiteSpace and LineTerminator code points (Unicode category Zs included). */
  predicate IsWhiteSpace(c: char)
  {
    || c == '\t' || c == '\n' || c == '\U{000B}' || c == '\U{000C}' || c == '\r' || c == ' '
    || c == '\U{00A0}' || c == '\U{1680}' || ('\U{2000}' <= c <= '\U{200A}')
    || c == '\U{2028}' || c == '\U{2029}' || c == '\U{202F}' || c == '\U{205F}'
    || c == '\U{3000}' || c == '\U{FEFF}'
  }

  predicate AllWhiteSpace(s: string)
  {
    forall i :: 0 <= i < |s| ==> IsWhiteSpace(s[i])
  }

  /** `s` without its leading white space. */
  function TrimStart(s: string): (r: string)
    ensures |r| <= |s| && r == s[|s| - |r|..]
    ensures forall i :: 0 <= i < |s| - |r| ==> IsWhiteSpace(s[i])
    ensures r != [] ==> !IsWhiteSpace(r[0])
  {
    if s != [] && IsWhiteSpace(s[0]) then
      var r := TrimStart(s[1..]);
      assert forall i :: 1 <= i < |s| - |r| ==> s[i] == s[1..][i - 1];
      r
    else s
  }

  /** `s` without its trailing white space. */
  function TrimEnd(s: string): (r: string)
    ensures |r| <= |s| && r == s[..|r|]
    ensures forall i :: |r| <= i < |s| ==> IsWhiteSpace(s[i])
    ensures r != [] ==> !IsWhiteSpace(r[|r| - 1])
  {
    if s != [] && IsWhiteSpace(s[|s| - 1]) then
      var r := TrimEnd(s[..|s| - 1]);
      assert forall i :: |r| <= i < |s| - 1 ==> s[i] == s[..|s| - 1][i];
      r
    else s
  }

  /**
   * `s.trim()`: the infix of `s` left once the white space at both ends is
   * removed; it starts and ends with a non-white-space character.
   */
  function Trim(s: string): (r: string)
    ensures exists i, j :: 0 <= i <= j <= |s| && r == s[i..j]
                           && AllWhiteSpace(s[..i]) && AllWhiteSpace(s[j..])
    ensures r != [] ==> !IsWhiteSpace(r[0]) && !IsWhiteSpace(r[|r| - 1])
  {
    var t := TrimStart(s);
    var r := TrimEnd(t);
    TrimParts(s, t, r);
    r
  }

  /** Stripping a white-space prefix and then a white-space suffix leaves an infix between white-space ends. */
  lemma TrimParts(s: string, t: string, r: string)
    requires |t| <= |s| && t == s[|s| - |t|..]
    requires forall i :: 0 <= i < |s| - |t| ==> IsWhiteSpace(s[i])
    requires |r| <= |t| && r == t[..|r|]
    requires forall i :: |r| <= i < |t| ==> IsWhiteSpace(t[i])
    ensures exists i, j :: 0 <= i <= j <= |s| && r == s[i..j]
                           && AllWhiteSpace(s[..i]) && AllWhiteSpace(s[j..])
  {
    var i := |s| - |t|;
    var j := i + |r|;
    assert r == s[i..j];
    assert AllWhiteSpace(s[..i]) by {
      forall k | 0 <= k < i ensures IsWhiteSpace(s[..i][k]) { assert s[..i][k] == s[k]; }
    }
    assert AllWhiteSpace(s[j..]) by {
      forall k | 0 <= k < |s| - j ensures IsWhiteSpace(s[j..][k]) {
        assert s[j..][k] == t[|r| + k];
      }
    }
  }

  /** The trimmed string is empty exactly when the whole string is white space. */
  lemma TrimEmptyIff(s: string)
    ensures Trim(s) == [] <==> AllWhiteSpace(s)
  {
    var t := TrimStart(s);
    var r := TrimEnd(t);
    var i := |s| - |t|;
    assert Trim(s) == r;
    if r == [] {
      assert t == [];
    } else {
      assert t[0] == r[0] && s[i] == t[0];
    }
  }

  // ---------------------------------------------------------------------------
  // Decimal text of integers
  // ---------------------------------------------------------------------------

  predicate IsDigit(c: char) { '0' <= c <= '9' }

  /** The character of a decimal digit. */
  function DigitChar(d: nat): (c: char)
    requires d < 10
    ensures IsDigit(c)
  {
    (d + '0' as int) as char
  }

  function DigitValue(c: char): (d: nat)
    requires IsDigit(c)
    ensures d < 10 && DigitChar(d) == c
  {
    (c as int - '0' as int)
  }

  /** The value of a run of decimal digits, most significant first (empty is 0). */
  function DecimalValue(s: string): (n: nat)
    requires AllDigits(s)
  {
    if s == [] then 0 else 10 * DecimalValue(s[..|s| - 1]) + DigitValue(s[|s| - 1])
  }

  /** `String(n)` for a non-negative integer `n`: its decimal digits, no leading zero. */
  function NatToDecimal(n: nat): (s: string)
    ensures |s| >= 1 && AllDigits(s)
    ensures |s| > 1 ==> s[0] != '0'
    ensures n < 10 <==> |s| == 1
  {
    if n < 10 then [DigitChar(n)] else NatToDecimal(n / 10) + [DigitChar(n % 10)]
  }

  /** Reading the decimal text of `n` back gives `n`. */
  lemma {:induction false} DecimalRoundTrip(n: nat)
    ensures DecimalValue(NatToDecimal(n)) == n
  {
    var s := NatToDecimal(n);
    if n < 10 {
      assert s[..0] == [];
    } else {
      DecimalRoundTrip(n / 10);
      assert s[..|s| - 1] == NatToDecimal(n / 10);
    }
  }

  /** Distinct integers have distinct decimal text. */
  lemma DecimalInjective(m: nat, n: nat)
    requires NatToDecimal(m) == NatToDecimal(n)
    ensures m == n
  {
    DecimalRoundTrip(m);
    DecimalRoundTrip(n);
  }

  // ---------------------------------------------------------------------------
  // ToNumber
  // ---------------------------------------------------------------------------

  function Pow(base: nat, e: nat): (p: nat)
    requires base >= 1
    ensures p >= 1
  {
    if e == 0 then 1 else base * Pow(base, e - 1)
  }

  /** The digit a character stands for in a radix up to 16, if any (letters in either case). */
  function RadixDigit(c: char, radix: nat): (d: Option<nat>)
    ensures d.Some? ==> d.value < radix
  {
    var v :=
      if '0' <= c <= '9' then c as int - '0' as int
      else if 'a' <= c <= 'f' then c as int - 'a' as int + 10
      else if 'A' <= c <= 'F' then c as int - 'A' as int + 10
      else 16;
    if v < radix then Some(v) else None
  }

  /** The value of a non-empty run of digits in `radix`, or None if some character is not one. */
  function RadixValue(s: string, radix: nat): (v: Option<nat>)
  {
    if s == [] then None
    else
      match RadixDigit(s[|s| - 1], radix)
      case None => None
      case Some(d) =>
        if |s| == 1 then Some(d)
        else
          match RadixValue(s[..|s| - 1], radix)
          case None => None
          case Some(v) => Some(radix * v + d)
  }

  /** Index of the first occurrence of a character from `cs` in `s`, if any. */
  function IndexOfAny(s: string, cs: set<char>): (r: Option<nat>)
    ensures r.Some? ==> r.value < |s| && s[r.value] in cs
                        && forall k :: 0 <= k < r.value ==> s[k] !in cs
    ensures r.None? ==> forall k :: 0 <= k < |s| ==> s[k] !in cs
  {
    if s == [] then None
    else if s[0] in cs then Some(0)
    else match IndexOfAny(s[1..], cs)
      case None => None
      case Some(k) => Some(k + 1)
  }

  predicate AllDigits(s: string)
  {
    forall i :: 0 <= i < |s| ==> IsDigit(s[i])
  }

  /** `10^e` for any integer `e`. */
  function TenTo(e: int): (r: real)
    ensures r > 0.0
  {
    if e >= 0 then Pow(10, e) as real else 1.0 / Pow(10, -e) as real
  }

  /** An optionally signed, non-empty run of decimal digits: an exponent part. */
  function SignedInt(s: string): (v: Option<int>)
  {
    if s != [] && (s[0] == '+' || s[0] == '-') then
      var u := s[1..];
      if u != [] && AllDigits(u) then
        var v: int := DecimalValue(u);
        Some(if s[0] == '-' then -v else v)
      else None
    else if s != [] && AllDigits(s) then Some(DecimalValue(s))
    else None
  }

  /** StrUnsignedDecimalLiteral: `Infinity`, or digits with an optional fraction and exponent. */
  function UnsignedDecimal(u: string): (r: JsNumber)
  {
    if u == "Infinity" then PosInf
    else
      var (mant, expo) :=
        match IndexOfAny(u, {'e', 'E'})
        case None => (u, Some(0))
        case Some(k) => (u[..k], SignedInt(u[k + 1..]));
      var (whole, frac) :=
        match IndexOfAny(mant, {'.'})
        case None => (mant, "")
        case Some(k) => (mant[..k], mant[k + 1..]);
      if expo.None? || !AllDigits(whole) || !AllDigits(frac) || whole + frac == [] then NaN
      else
        var m := DecimalValue(whole) as real + DecimalValue(frac) as real / Pow(10, |frac|) as real;
        Finite(m * TenTo(expo.value))
  }

  function Negate(n: JsNumber): (r: JsNumber)
  {
    match n
    case Finite(x) => Finite(-x)
    case PosInf => NegInf
    case NegInf => PosInf
    case NaN => NaN
  }

  /**
   * StringToNumber: the numeric value of a string, NaN when it is not a
   * numeric literal.  Surrounding white space is ignored, a blank string is 0,
   * and a run of decimal digits (leading zeros included) is its decimal value.
   */
  function StringToNumber(s: string): (r: JsNumber)
    ensures AllWhiteSpace(s) ==> r == Finite(0.0)
    ensures s != [] && AllDigits(s) ==> r == Finite(DecimalValue(s) as real)
  {
    TrimEmptyIff(s);
    DigitsParse(s);
    var t := Trim(s);
    if t == [] then Finite(0.0) else NonEmptyLiteral(t)
  }

  /** StrNumericLiteral, for a non-empty string without surrounding white space. */
  function NonEmptyLiteral(t: string): (r: JsNumber)
    requires t != []
    ensures AllDigits(t) ==> r == UnsignedDecimal(t)
  {
    if |t| > 2 && t[0] == '0' && t[1] in "xXoObB" then
      var radix := if t[1] in "xX" then 16 else if t[1] in "oO" then 8 else 2;
      match RadixValue(t[2..], radix)
      case None => NaN
      case Some(v) => Finite(v as real)
    else if t[0] == '-' then Negate(UnsignedDecimal(t[1..]))
    else if t[0] == '+' then UnsignedDecimal(t[1..])
    else UnsignedDecimal(t)
  }

  /** ToNumber, as applied by `<` and `*` to a value read from the response body. */
  function ToNumber(v: JsValue): (r: JsNumber)
    ensures v.JNumber? ==> r == v.n
    ensures r.NaN? && !v.JString? ==> v == JUndefined || v == JNumber(NaN)
    ensures v.JUndefined? ==> r.NaN?
    ensures v.JNull? ==> r == Finite(0.0)
    ensures v.JBool? ==> r == Finite(if v.b then 1.0 else 0.0)
  {
    match v
    case JNumber(n) => n
    case JUndefined => NaN
    case JNull => Finite(0.0)
    case JBool(b) => Finite(if b then 1.0 else 0.0)
    case JString(s) => StringToNumber(s)
  }

  /** A missing field coerces to NaN; null, booleans and blank strings to a finite number. */
  lemma ToNumberOfNonNumbers(s: string)
    ensures ToNumber(JUndefined) == NaN
    ensures ToNumber(JNull) == Finite(0.0)
    ensures AllWhiteSpace(s) ==> ToNumber(JString(s)) == Finite(0.0)
  {
    TrimEmptyIff(s);
  }

  /** A run of decimal digits with no sign, fraction or exponent reads as its decimal value. */
  lemma UnsignedDecimalOfDigits(s: string)
    requires s != [] && AllDigits(s)
    ensures UnsignedDecimal(s) == Finite(DecimalValue(s) as real)
  {
    assert s != "Infinity" by { assert !IsDigit("Infinity"[0]); }
    assert IndexOfAny(s, {'e', 'E'}) == None;
    assert IndexOfAny(s, {'.'}) == None;
    assert s + "" == s;
  }

  /** A run of decimal digits has no white space to trim and reads as its decimal value. */
  lemma DigitsParse(s: string)
    ensures s != [] && AllDigits(s) ==> Trim(s) == s && UnsignedDecimal(s) == Finite(DecimalValue(s) as real)
  {
    if s != [] && AllDigits(s) {
      TrimOfDigits(s);
      UnsignedDecimalOfDigits(s);
    }
  }

  /** A string holding the decimal text of `n` coerces to `n`. */
  lemma DecimalStringToNumber(n: nat)
    ensures StringToNumber(NatToDecimal(n)) == Finite(n as real)
  {
    DecimalRoundTrip(n);
  }

  lemma TrimOfDigits(s: string)
    requires s != [] && AllDigits(s)
    ensures Trim(s) == s
  {
    TrimStartKeeps(s);
    TrimEndKeeps(s);
  }

  lemma TrimStartKeeps(s: string)
    requires s != [] && !IsWhiteSpace(s[0])
    ensures TrimStart(s) == s
  {
  }

  lemma TrimEndKeeps(s: string)
    requires s != [] && !IsWhiteSpace(s[|s| - 1])
    ensures TrimEnd(s) == s
  {
  }
}
