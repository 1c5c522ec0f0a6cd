/**
 * The integer and rounding helpers of the engine's Math namespace
 * (src/main/core/Math.js). Numbers are modelled as exact reals; the
 * bit-trick rounding functions go through the 32-bit conversion that the
 * `>>` and `|` operators apply.
 */
module CoreMath {
  import opened Wrappers
  import opened JsValues

  // ---------------------------------------------------------------------
  // min, max, abs

  /** Math.min: `a` when `a < b`, otherwise `b`. */
  function Min(a: real, b: real): (r: real)
    ensures r <= a && r <= b
    ensures r == a || r == b
  {
    if a < b then a else b
  }

  /** Math.max: `a` when `a > b`, otherwise `b`. */
  function Max(a: real, b: real): (r: real)
    ensures r >= a && r >= b
    ensures r == a || r == b
  {
    if a > b then a else b
  }

  /** Math.abs: `n` when positive, otherwise `-n`. */
  function Abs(n: real): (r: real)
    ensures r >= 0.0
    ensures r == n || r == -n
    ensures n > 0.0 ==> r == n
  {
    if n > 0.0 then n else -n
  }

  // ---------------------------------------------------------------------
  // nearestMultiple

  /** JavaScript's `%` on numbers: the remainder of division truncated toward zero. */
  function Rem(a: real, b: real): real
    requires b != 0.0
  {
    a - b * (Trunc(a / b) as real)
  }

  /** Multiplying both sides by a positive factor keeps an inequality. */
  lemma ScaleBounds(b: real, lo: real, x: real, hi: real)
    requires b > 0.0 && lo <= x < hi
    ensures b * lo <= b * x < b * hi
  {
    assert b * x - b * lo == b * (x - lo);
    assert b * hi - b * x == b * (hi - x);
  }

  /** The floor of a quotient brackets the dividend between two multiples of the divisor. */
  lemma QuotientFloorBounds(a: real, b: real)
    requires b > 0.0
    ensures b * ((a / b).Floor as real) <= a < b * ((a / b).Floor as real) + b
  {
    var q := a / b;
    var f := q.Floor as real;
    assert a == b * q;
    ScaleBounds(b, f, q, f + 1.0);
    assert b * q < b * (f + 1.0);
    assert b * (f + 1.0) == b * f + b;
    assert a < b * f + b;
  }

  /** For a non-negative dividend and a positive divisor, `%` is the usual remainder. */
  lemma RemOfNonNegative(a: real, b: real)
    requires a >= 0.0 && b > 0.0
    ensures Rem(a, b) == a - b * ((a / b).Floor as real)
    ensures 0.0 <= Rem(a, b) < b
  {
    assert a / b >= 0.0;
    QuotientFloorBounds(a, b);
  }

  /** Math.nearestMultiple(numToRound, multiple), branch for branch. */
  function NearestMultiple(n: real, m: real): real
  {
    if m == 0.0 then n
    else
      var remainder := Rem(Abs(n), m);
      if remainder == 0.0 then n + m
      else if n < 0.0 then -(Abs(n) - remainder)
      else n + m - remainder
  }

  /** The non-negative half of NearestMultipleIsNextMultipleAbove. */
  lemma NearestMultipleNonNegative(n: real, m: real)
    requires m > 0.0 && n >= 0.0
    ensures NearestMultiple(n, m) == m * (((n / m).Floor + 1) as real)
  {
    assert Abs(n) == n;
    RemOfNonNegative(n, m);
    var f := (n / m).Floor as real;
    assert m * (f + 1.0) == m * f + m;
  }

  /** The negative half of NearestMultipleIsNextMultipleAbove. */
  lemma NearestMultipleNegative(n: real, m: real)
    requires m > 0.0 && n < 0.0
    ensures NearestMultiple(n, m) == m * (((n / m).Floor + 1) as real)
  {
    var a := -n;
    var g := (a / m).Floor;
    var below := m * (g as real);
    assert NearestMultiple(n, m) == if a - below == 0.0 then n + m else -below by {
      assert Abs(n) == a;
      RemOfNonNegative(a, m);
    }
    if a - below == 0.0 {
      assert (n / m).Floor == -g by {
        FloorOfExactNegative(n, m, g);
      }
      assert m * ((-g + 1) as real) == -below + m;
    } else {
      assert (n / m).Floor == -g - 1 by {
        QuotientFloorBounds(a, m);
        FloorOfInexactNegative(n, m, g);
      }
      assert m * ((-g - 1 + 1) as real) == -below;
    }
  }

  /** A negative exact multiple -g * m has floor quotient -g. */
  lemma FloorOfExactNegative(n: real, m: real, g: int)
    requires m > 0.0 && -n == m * (g as real)
    ensures (n / m).Floor == -g
  {
    assert n == m * (-(g as real));
    assert n / m == -(g as real);
  }

  /** A negative value strictly between -(g + 1) * m and -g * m has floor quotient -g - 1. */
  lemma FloorOfInexactNegative(n: real, m: real, g: int)
    requires m > 0.0 && m * (g as real) < -n < m * (g as real) + m
    ensures (n / m).Floor == -g - 1
  {
    var q := n / m;
    var b := g as real;
    assert n == m * q;
    var below, above := b + q, b + 1.0 + q;
    assert m * below == m * b + n;
    assert m * above == m * b + m + n;
    SignOfProduct(m, below);
    SignOfProduct(m, above);
    assert ((-g - 1) as real) < q < ((-g - 1) as real) + 1.0;
  }

  /** A positive factor keeps the sign of the other. */
  lemma SignOfProduct(m: real, x: real)
    requires m > 0.0
    ensures m * x < 0.0 ==> x < 0.0
    ensures m * x > 0.0 ==> x > 0.0
  {
    if x >= 0.0 {
      assert m * x >= 0.0;
    }
    if x <= 0.0 {
      assert m * (-x) >= 0.0;
    }
  }

  /**
   * For a positive multiple, every branch of nearestMultiple lands on the
   * smallest multiple of `m` strictly above `n`: an exact multiple moves up to
   * the next one, a positive value rounds up, a negative one toward zero.
   */
  lemma NearestMultipleIsNextMultipleAbove(n: real, m: real)
    requires m > 0.0
    ensures NearestMultiple(n, m) == m * (((n / m).Floor + 1) as real)
    ensures n < NearestMultiple(n, m) <= n + m
  {
    if n >= 0.0 {
      NearestMultipleNonNegative(n, m);
    } else {
      NearestMultipleNegative(n, m);
    }
    var k := (n / m).Floor as real;
    QuotientFloorBounds(n, m);
    assert m * (k + 1.0) == m * k + m;
  }

  /** nearestMultiple with a zero multiple returns its argument unchanged. */
  lemma NearestMultipleOfZero(n: real)
    ensures NearestMultiple(n, 0.0) == n
  {
  }

  // ---------------------------------------------------------------------
  // round, ceil, floor (bit tricks: `n | 0` and `x >> 0`)

  /** Math.floor: `n | 0`. */
  function Floor(n: real): (r: int)
    ensures -TWO_31 <= r < TWO_31
  {
    Int32Of(n)
  }

  /** Math.ceil: `n + (n < 0 ? 0 : 1) >> 0`. */
  function Ceil(n: real): (r: int)
    ensures -TWO_31 <= r < TWO_31
  {
    Int32Of(n + (if n < 0.0 then 0.0 else 1.0))
  }

  /** Math.round: `n + (n < 0 ? -0.5 : 0.5) >> 0`. */
  function Round(n: real): (r: int)
    ensures -TWO_31 <= r < TWO_31
  {
    Int32Of(n + (if n < 0.0 then -0.5 else 0.5))
  }

  /** Numbers strictly inside the signed 32-bit range. */
  predicate InInt32Range(n: real)
  {
    -(TWO_31 as real) + 1.0 < n < (TWO_31 as real) - 1.0
  }

  /**
   * Within the 32-bit range Math.floor truncates toward zero: it agrees with
   * the mathematical floor on non-negative numbers and is one above it on
   * negative non-integers.
   */
  lemma FloorTruncatesTowardZero(n: real)
    requires InInt32Range(n)
    ensures Floor(n) == Trunc(n)
    ensures n >= 0.0 ==> Floor(n) == n.Floor
    ensures n < 0.0 && n != n.Floor as real ==> Floor(n) == n.Floor + 1
  {
    var t := Trunc(n);
    assert -TWO_31 < t < TWO_31;
    if n < 0.0 && n != n.Floor as real {
      assert t as real - 1.0 < n <= t as real;
      assert n < t as real;
      assert n.Floor == t - 1;
    }
  }

  /** Math.floor(-1.5) is -1, not -2. */
  lemma FloorOfNegativeHalf()
    ensures Floor(-1.5) == -1
    ensures (-1.5).Floor == -2
  {
    assert Trunc(-1.5) == -1;
  }

  /**
   * Within the 32-bit range Math.ceil is the mathematical ceiling for negative
   * numbers, but `floor(n) + 1` for non-negative ones, so it maps a
   * non-negative integer `k` to `k + 1`.
   */
  lemma CeilCases(n: real)
    requires InInt32Range(n)
    ensures n >= 0.0 ==> Ceil(n) == n.Floor + 1
    ensures n < 0.0 ==> Ceil(n) == -((-n).Floor)
    ensures n >= 0.0 && n == n.Floor as real ==> Ceil(n) as real == n + 1.0
  {
    if n >= 0.0 {
      var t := Trunc(n + 1.0);
      assert t == (n + 1.0).Floor;
      assert (n + 1.0).Floor == n.Floor + 1;
      assert -TWO_31 <= t < TWO_31;
    } else {
      var t := Trunc(n);
      assert -TWO_31 <= t < TWO_31;
    }
  }

  /**
   * Within the 32-bit range Math.round rounds half away from zero: it is
   * never more than one half away from `n`, and a tie goes to the integer
   * of larger magnitude.
   */
  lemma RoundHalfAwayFromZero(n: real)
    requires InInt32Range(n)
    ensures n >= 0.0 ==> Round(n) == (n + 0.5).Floor
    ensures n < 0.0 ==> Round(n) == -((0.5 - n).Floor)
    ensures n - 0.5 <= Round(n) as real <= n + 0.5
  {
    if n >= 0.0 {
      var t := Trunc(n + 0.5);
      assert -TWO_31 <= t < TWO_31;
    } else {
      var t := Trunc(n - 0.5);
      assert t == -((0.5 - n).Floor);
      assert -TWO_31 <= t < TWO_31;
    }
  }

  /** Ties: 2.5 rounds to 3 and -2.5 to -3. */
  lemma RoundTies()
    ensures Round(2.5) == 3 && Round(-2.5) == -3
  {
    assert Trunc(3.0) == 3;
    assert Trunc(-3.0) == -3;
  }

  // ---------------------------------------------------------------------
  // Radix conversions: decimalTo* (Number.prototype.toString(radix)) and
  // *ToDecimal (parseInt(s, radix)), on integers.

  /** The character toString uses for a digit below 16 (lower case). */
  function DigitChar(d: nat): (c: char)
    requires d < 16
  {
    if d < 10 then ('0' as int + d) as char else ('a' as int + d - 10) as char
  }

  /** The value parseInt gives a character (either case); 36 for a character that is no digit. */
  function DigitValue(c: char): (d: nat)
    ensures d <= 36
  {
    if '0' <= c <= '9' then c as int - '0' as int
    else if 'a' <= c <= 'z' then c as int - 'a' as int + 10
    else if 'A' <= c <= 'Z' then c as int - 'A' as int + 10
    else 36
  }

  /** Multiplying by at least two at least doubles. */
  lemma {:induction false} AtLeastDouble(q: nat, m: nat)
    requires m >= 2
    ensures q * m >= 2 * q
  {
    if q > 0 {
      AtLeastDouble(q - 1, m);
      assert q * m == (q - 1) * m + m;
    }
  }

  /** Division by a radix of at least two: quotient and remainder rebuild a positive `k`, and the quotient is smaller. */
  lemma QuotientDecreases(k: nat, radix: nat)
    requires 2 <= radix && k > 0
    ensures k == (k / radix) * radix + k % radix
    ensures k / radix < k
  {
    var q, r := k / radix, k % radix;
    assert k == q * radix + r;
    AtLeastDouble(q, radix);
  }

  /** The digits of a natural number in the given radix, most significant first. */
  function NatToString(k: nat, radix: nat): (s: string)
    requires 2 <= radix <= 16
    ensures |s| >= 1
    ensures forall i :: 0 <= i < |s| ==> DigitValue(s[i]) < radix
    decreases k
  {
    if k < radix then [DigitChar(k)]
    else
      QuotientDecreases(k, radix);
      NatToString(k / radix, radix) + [DigitChar(k % radix)]
  }

  /** Number.prototype.toString(radix) on an integer: a minus sign, then the digits of its magnitude. */
  function IntToString(k: int, radix: nat): string
    requires 2 <= radix <= 16
  {
    if k < 0 then "-" + NatToString(-k, radix) else NatToString(k, radix)
  }

  /** The length of the longest prefix of `s` made of digits valid in the radix. */
  function DigitsPrefix(s: string, radix: nat): (n: nat)
    ensures n <= |s|
    ensures forall i :: 0 <= i < n ==> DigitValue(s[i]) < radix
    ensures n < |s| ==> DigitValue(s[n]) >= radix
  {
    if s == [] || DigitValue(s[0]) >= radix then 0
    else 1 + DigitsPrefix(s[1..], radix)
  }

  /** The number a string of digits denotes in the radix. */
  function DigitsValue(s: string, radix: nat): nat
  {
    if s == [] then 0
    else DigitsValue(s[..|s| - 1], radix) * radix + DigitValue(s[|s| - 1])
  }

  /**
   * StrWhiteSpaceChar of ECMAScript (section 7.1.4.1.1 of ECMA-262): the
   * white space characters (tab, vertical tab, form feed, space, no-break
   * space, byte order mark and the other Zs space separators) and the line
   * terminators.
   */
  predicate IsJsWhiteSpace(c: char)
  {
    c == '\t' || c == '\n' || c == '\U{000B}' || c == '\U{000C}' || c == '\r' || c == ' '
    || c == '\U{00A0}' || c == '\U{1680}' || ('\U{2000}' <= c <= '\U{200A}')
    || c == '\U{2028}' || c == '\U{2029}' || c == '\U{202F}' || c == '\U{205F}'
    || c == '\U{3000}' || c == '\U{FEFF}'
  }

  /** The text without its leading white space, as parseInt first trims it. */
  function TrimStart(s: string): (t: string)
    ensures |t| <= |s| && t == s[|s| - |t|..]
    ensures forall i :: 0 <= i < |s| - |t| ==> IsJsWhiteSpace(s[i])
    ensures t != [] ==> !IsJsWhiteSpace(t[0])
  {
    if s != [] && IsJsWhiteSpace(s[0]) then
      var t := TrimStart(s[1..]);
      TrimStartStep(s, t);
      t
    else s
  }

  lemma TrimStartStep(s: string, t: string)
    requires s != [] && IsJsWhiteSpace(s[0])
    requires |t| <= |s| - 1 && t == s[1..][|s| - 1 - |t|..]
    requires forall i :: 0 <= i < |s| - 1 - |t| ==> IsJsWhiteSpace(s[1..][i])
    ensures t == s[|s| - |t|..]
    ensures forall i :: 0 <= i < |s| - |t| ==> IsJsWhiteSpace(s[i])
  {
    assert s[1..][|s| - 1 - |t|..] == s[|s| - |t|..];
    forall i | 0 <= i < |s| - |t|
      ensures IsJsWhiteSpace(s[i])
    {
      if i > 0 {
        assert s[i] == s[1..][i - 1];
      }
    }
  }

  /**
   * parseInt(s, radix): leading white space, an optional sign, an optional
   * "0x"/"0X" in radix 16, then the longest run of valid digits; no digit at
   * all gives NaN (None).
   */
  function ParseInt(s: string, radix: nat): (r: Option<int>)
    requires 2 <= radix <= 36
  {
    ParseTrimmed(TrimStart(s), radix)
  }

  /** parseInt after the leading white space is gone. */
  function ParseTrimmed(t: string, radix: nat): (r: Option<int>)
    requires 2 <= radix <= 36
  {
    match Magnitude(Body(Unsigned(t), radix), radix)
    case None => None
    case Some(m) => if |t| > 0 && t[0] == '-' then Some(-(m as int)) else Some(m as int)
  }

  /** The text after an optional sign. */
  function Unsigned(s: string): string
  {
    if |s| > 0 && (s[0] == '-' || s[0] == '+') then s[1..] else s
  }

  /** The digits after an optional "0x"/"0X", which only radix 16 accepts. */
  function Body(u: string, radix: nat): string
  {
    if radix == 16 && |u| >= 2 && u[0] == '0' && (u[1] == 'x' || u[1] == 'X') then u[2..] else u
  }

  /** The value of the longest run of valid digits, or None (NaN) when there is none. */
  function Magnitude(body: string, radix: nat): Option<nat>
  {
    var n := DigitsPrefix(body, radix);
    if n == 0 then None else Some(DigitsValue(body[..n], radix))
  }

  function DecimalToBinary(k: int): string { IntToString(k, 2) }
  function DecimalToOctal(k: int): string { IntToString(k, 8) }
  function DecimalToHex(k: int): string { IntToString(k, 16) }
  function BinaryToDecimal(s: string): Option<int> { ParseInt(s, 2) }
  function OctalToDecimal(s: string): Option<int> { ParseInt(s, 8) }
  function HexToDecimal(s: string): Option<int> { ParseInt(s, 16) }

  /** parseInt reads back the digit toString writes. */
  lemma DigitValueOfDigitChar(d: nat)
    requires d < 16
    ensures DigitValue(DigitChar(d)) == d
  {
  }

  /** A string made only of valid digits is read to its end. */
  lemma {:induction false} AllDigitsPrefix(s: string, radix: nat)
    requires forall i :: 0 <= i < |s| ==> DigitValue(s[i]) < radix
    ensures DigitsPrefix(s, radix) == |s|
  {
    if s != [] {
      AllDigitsPrefix(s[1..], radix);
    }
  }

  /** Appending a digit multiplies the value by the radix and adds the digit. */
  lemma DigitsValueAppend(prefix: string, c: char, radix: nat)
    ensures DigitsValue(prefix + [c], radix) == DigitsValue(prefix, radix) * radix + DigitValue(c)
  {
    assert (prefix + [c])[..|prefix|] == prefix;
  }

  /** One more digit: a prefix worth q followed by a digit worth r is worth q * radix + r. */
  lemma DigitsValueStep(prefix: string, c: char, q: nat, r: nat, k: nat, radix: nat)
    requires DigitsValue(prefix, radix) == q && DigitValue(c) == r && k == q * radix + r
    ensures DigitsValue(prefix + [c], radix) == k
  {
    DigitsValueAppend(prefix, c, radix);
  }

  /** Reading back the digits of a natural number gives the number. */
  lemma {:induction false} DigitsValueOfNatToString(k: nat, radix: nat)
    requires 2 <= radix <= 16
    ensures DigitsValue(NatToString(k, radix), radix) == k
    decreases k
  {
    if k < radix {
      DigitValueOfDigitChar(k);
      DigitsValueStep([], DigitChar(k), 0, k, k, radix);
      assert [] + [DigitChar(k)] == NatToString(k, radix);
    } else {
      var q, r := k / radix, k % radix;
      assert k == q * radix + r && q < k by {
        QuotientDecreases(k, radix);
      }
      var prefix := NatToString(q, radix);
      assert NatToString(k, radix) == prefix + [DigitChar(r)];
      DigitsValueOfNatToString(q, radix);
      assert DigitValue(DigitChar(r)) == r by {
        DigitValueOfDigitChar(r);
      }
      DigitsValueStep(prefix, DigitChar(r), q, r, k, radix);
    }
  }

  /** A run of valid digits has no sign and, in radix 16, no "0x" prefix, and is read to its end. */
  lemma DigitsHaveNoPrefix(digits: string, radix: nat)
    requires 2 <= radix <= 16 && |digits| >= 1
    requires forall i :: 0 <= i < |digits| ==> DigitValue(digits[i]) < radix
    ensures Unsigned(digits) == digits && Body(digits, radix) == digits
    ensures Magnitude(digits, radix) == Some(DigitsValue(digits, radix))
  {
    AllDigitsPrefix(digits, radix);
    assert DigitValue(digits[0]) < radix;
    assert |digits| >= 2 ==> DigitValue(digits[1]) < radix;
    assert digits[..|digits|] == digits;
  }

  /** parseInt reads an unsigned run of valid digits to its end. */
  lemma ParseIntOfDigits(digits: string, radix: nat)
    requires 2 <= radix <= 16 && |digits| >= 1
    requires forall i :: 0 <= i < |digits| ==> DigitValue(digits[i]) < radix
    ensures ParseInt(digits, radix) == Some(DigitsValue(digits, radix))
  {
    DigitsAreTrimmed(digits, radix);
    DigitsHaveNoPrefix(digits, radix);
  }

  /** A run of valid digits starts with no white space for parseInt to skip. */
  lemma DigitsAreTrimmed(digits: string, radix: nat)
    requires 2 <= radix <= 16 && |digits| >= 1
    requires DigitValue(digits[0]) < radix
    ensures TrimStart(digits) == digits
  {
    DigitIsNoWhiteSpace(digits[0]);
  }

  lemma DigitIsNoWhiteSpace(c: char)
    requires DigitValue(c) < 36
    ensures !IsJsWhiteSpace(c)
  {
  }

  /** parseInt reads a minus sign followed by a run of valid digits to its end. */
  lemma ParseIntOfNegatedDigits(digits: string, radix: nat)
    requires 2 <= radix <= 16 && |digits| >= 1
    requires forall i :: 0 <= i < |digits| ==> DigitValue(digits[i]) < radix
    ensures ParseInt("-" + digits, radix) == Some(-(DigitsValue(digits, radix) as int))
  {
    var s := "-" + digits;
    UnsignedOfNegated(digits);
    assert ParseInt(s, radix) == ParseTrimmed(s, radix);
    assert Magnitude(Body(Unsigned(s), radix), radix) == Some(DigitsValue(digits, radix)) by {
      DigitsHaveNoPrefix(digits, radix);
    }
  }

  lemma UnsignedOfNegated(digits: string)
    ensures TrimStart("-" + digits) == "-" + digits
    ensures Unsigned("-" + digits) == digits
    ensures ("-" + digits)[0] == '-'
  {
    assert ("-" + digits)[1..] == digits;
  }

  /** parseInt skips any run of leading white space: " 101" reads as "101". */
  lemma ParseIntSkipsWhiteSpace(ws: string, s: string, radix: nat)
    requires 2 <= radix <= 36
    requires forall i :: 0 <= i < |ws| ==> IsJsWhiteSpace(ws[i])
    ensures ParseInt(ws + s, radix) == ParseInt(s, radix)
  {
    TrimStartSkips(ws, s);
  }

  lemma {:induction false} TrimStartSkips(ws: string, s: string)
    requires forall i :: 0 <= i < |ws| ==> IsJsWhiteSpace(ws[i])
    ensures TrimStart(ws + s) == TrimStart(s)
    decreases |ws|
  {
    if ws != [] {
      assert (ws + s)[0] == ws[0];
      assert (ws + s)[1..] == ws[1..] + s;
      TrimStartSkips(ws[1..], s);
    } else {
      assert ws + s == s;
    }
  }

  /** Digits after any leading white space read to their value: binaryToDecimal(" 101") is 5. */
  lemma ParseIntOfSpacedDigits(ws: string, digits: string, radix: nat)
    requires 2 <= radix <= 16 && |digits| >= 1
    requires forall i :: 0 <= i < |ws| ==> IsJsWhiteSpace(ws[i])
    requires forall i :: 0 <= i < |digits| ==> DigitValue(digits[i]) < radix
    ensures ParseInt(ws + digits, radix) == Some(DigitsValue(digits, radix))
  {
    ParseIntSkipsWhiteSpace(ws, digits, radix);
    ParseIntOfDigits(digits, radix);
  }

  /** parseInt(k.toString(radix), radix) == k for every integer k and radix 2, 8 or 16. */
  lemma ParseIntOfIntToString(k: int, radix: nat)
    requires radix == 2 || radix == 8 || radix == 16
    ensures ParseInt(IntToString(k, radix), radix) == Some(k)
  {
    var magnitude: nat := if k < 0 then -k else k;
    var digits := NatToString(magnitude, radix);
    DigitsValueOfNatToString(magnitude, radix);
    if k < 0 {
      ParseIntOfNegatedDigits(digits, radix);
    } else {
      ParseIntOfDigits(digits, radix);
    }
  }

  /** The three round trips of Math.js: binary, octal and hexadecimal. */
  lemma RadixRoundTrips(k: int)
    ensures BinaryToDecimal(DecimalToBinary(k)) == Some(k)
    ensures OctalToDecimal(DecimalToOctal(k)) == Some(k)
    ensures HexToDecimal(DecimalToHex(k)) == Some(k)
  {
    ParseIntOfIntToString(k, 2);
    ParseIntOfIntToString(k, 8);
    ParseIntOfIntToString(k, 16);
  }
}
