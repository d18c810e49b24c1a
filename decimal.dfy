/** `Number.prototype.toFixed` (section 21.1.3.3 of ECMA-262) on exact reals,
    and the value of the numerals it writes. */
module Decimal {
  import opened Text

  /** 10^21: from here on `toFixed` falls back to `Number::toString`. */
  const Threshold: real := 1000000000000000000000.0

  /** The integer `n` for which `n / p - y` is closest to zero, the larger one on a tie. */
  function Nearest(y: real, p: real): (n: int)
    requires p > 0.0
    ensures n as real - 0.5 <= y * p < n as real + 0.5
    ensures y >= 0.0 ==> n >= 0
  {
    assert y >= 0.0 ==> y * p >= 0.0;
    (y * p + 0.5).Floor
  }

  /** The digits of `n` with a point before the last `f` of them, zero-padded so
      that at least one digit stands before the point. */
  function PointDigits(n: nat, f: nat): (s: string)
    ensures |s| >= 1 && IsDigit(s[0]) && IsDigit(s[|s| - 1])
    ensures forall i :: 0 <= i < |s| ==> IsDigit(s[i]) || s[i] == '.'
  {
    if f == 0 then Pad(n, 1)
    else
      var m := Pad(n, f + 1);
      m[..|m| - f] + "." + m[|m| - f..]
  }

  /** `x.toFixed(f)` for `x >= 0`; `huge` is `Number::toString` on magnitudes of 10^21 and more. */
  function Magnitude(huge: real -> string, x: real, f: nat): string
    requires x >= 0.0
  {
    if x >= Threshold then huge(x)
    else
      PointDigits(Nearest(x, Power10(f) as real) as nat, f)
  }

  /** `x.toFixed(f)`: a minus sign for negative `x`, then the magnitude. */
  function ToFixed(huge: real -> string, x: real, f: nat): string {
    if x < 0.0 then "-" + Magnitude(huge, -x, f) else Magnitude(huge, x, f)
  }

  /** `y >= 0` rounded to the nearest multiple of 10^-f, ties upwards. */
  function RoundedMagnitude(y: real, f: nat): real {
    Nearest(y, Power10(f) as real) as real / Power10(f) as real
  }

  /** `x` rounded to `f` decimals the way `toFixed` rounds: the magnitude to the
      nearest, ties away from zero. */
  function Rounded(x: real, f: nat): real {
    if x < 0.0 then -RoundedMagnitude(-x, f) else RoundedMagnitude(x, f)
  }

  // ---- Reading a numeral back ----

  /** Digits, optionally a point and more digits. */
  predicate IsUnsigned(s: string) {
    var parts := Split(s, '.');
    (|parts| == 1 || |parts| == 2) &&
    (forall i :: 0 <= i < |parts| ==> |parts[i]| >= 1 && AllDigits(parts[i]))
  }

  /** `[-]digits[.digits]`, the numerals `toFixed` writes below 10^21. */
  predicate IsNumeral(s: string) {
    if |s| >= 1 && s[0] == '-' then IsUnsigned(s[1..]) else IsUnsigned(s)
  }

  function UnsignedValue(s: string): real
    requires IsUnsigned(s)
  {
    var parts := Split(s, '.');
    if |parts| == 1 then DigitsValue(parts[0]) as real
    else DigitsValue(parts[0]) as real + DigitsValue(parts[1]) as real / Power10(|parts[1]|) as real
  }

  /** The exact value a numeral denotes. */
  function NumeralValue(s: string): real
    requires IsNumeral(s)
  {
    if |s| >= 1 && s[0] == '-' then -UnsignedValue(s[1..]) else UnsignedValue(s)
  }

  // ---- toFixed writes a numeral for the rounded value ----

  /** A digit string splits into a high and a low part at any position. */
  lemma {:induction false} DigitsValueAppend(a: string, b: string)
    requires AllDigits(a) && AllDigits(b)
    ensures AllDigits(a + b) && DigitsValue(a + b) == DigitsValue(a) * Power10(|b|) + DigitsValue(b)
  {
    assert AllDigits(a + b) by {
      forall i | 0 <= i < |a + b| ensures IsDigit((a + b)[i]) {
        if i >= |a| { assert (a + b)[i] == b[i - |a|]; }
      }
    }
    if b == [] {
      assert a + b == a;
    } else {
      var b' := b[..|b| - 1];
      var d := b[|b| - 1] as int - '0' as int;
      assert AllDigits(b') by {
        forall i | 0 <= i < |b'| ensures IsDigit(b'[i]) { assert b'[i] == b[i]; }
      }
      DigitsValueAppend(a, b');
      assert (a + b)[..|a + b| - 1] == a + b';
      assert (a + b)[|a + b| - 1] == b[|b| - 1];
      assert DigitsValue(a + b) == 10 * DigitsValue(a + b') + d;
      assert DigitsValue(b) == 10 * DigitsValue(b') + d;
      assert Power10(|b|) == 10 * Power10(|b'|);
      AppendStep(DigitsValue(a), Power10(|b'|), DigitsValue(b'), d);
    }
  }

  lemma AppendStep(a: int, q: int, b: int, d: int)
    ensures 10 * (a * q + b) + d == a * (10 * q) + (10 * b + d)
  {
  }

  lemma MulAsReal(a: int, b: int)
    ensures (a * b) as real == a as real * b as real
  {
  }

  lemma DivShift(e: real, y: real, p: real)
    requires p > 0.0
    ensures (e + y * p) / p == e / p + y
  {
    assert (e / p + y) * p == e + y * p;
  }

  lemma DivBound(e: real, b: real, p: real)
    requires p > 0.0 && -b <= e <= b
    ensures -b / p <= e / p <= b / p
  {
    assert (e / p) * p == e;
    assert (b / p) * p == b;
  }

  /** A digit string that holds no point splits on the point into itself. */
  lemma DigitsHaveNoPoint(s: string)
    requires AllDigits(s)
    ensures '.' !in s
  {
    forall i | 0 <= i < |s| ensures s[i] != '.' { assert IsDigit(s[i]); }
  }

  /** Both sides of a cut through a digit string are digit strings without a point. */
  lemma DigitSlices(m: string, k: nat)
    requires AllDigits(m) && k <= |m|
    ensures AllDigits(m[..k]) && AllDigits(m[k..]) && '.' !in m[..k] && '.' !in m[k..]
  {
    assert forall i :: 0 <= i < k ==> m[..k][i] == m[i];
    assert forall i :: 0 <= i < |m| - k ==> m[k..][i] == m[k + i];
    DigitsHaveNoPoint(m[..k]);
    DigitsHaveNoPoint(m[k..]);
  }

  /** With decimals, the numeral splits at its point into the integer digits and `f` decimals. */
  lemma PointDigitsSplit(n: nat, f: nat)
    requires f > 0
    ensures var m := Pad(n, f + 1);
            var hi := m[..|m| - f];
            var lo := m[|m| - f..];
            Split(PointDigits(n, f), '.') == [hi, lo] && hi + lo == m &&
            |hi| >= 1 && AllDigits(hi) && |lo| == f && AllDigits(lo)
  {
    var m := Pad(n, f + 1);
    assert PointDigits(n, f) == m[..|m| - f] + "." + m[|m| - f..];
    PointSplit(m, f);
  }

  /** A digit string of more than `f` digits, with a point put before its
      last `f`, splits at the point into the two sides. */
  lemma PointSplit(m: string, f: nat)
    requires AllDigits(m) && |m| >= f + 1
    ensures var hi := m[..|m| - f];
            var lo := m[|m| - f..];
            Split(hi + "." + lo, '.') == [hi, lo] && hi + lo == m &&
            |hi| >= 1 && AllDigits(hi) && |lo| == f && AllDigits(lo)
  {
    var hi := m[..|m| - f];
    var lo := m[|m| - f..];
    DigitSlices(m, |m| - f);
    SplitPrefix(hi, lo, '.');
    assert hi + "." + lo == hi + ['.'] + lo;
    assert hi + lo == m;
  }

  /** `h + l / p == (h * p + l) / p`, on integers read as reals. */
  lemma CombineValue(h: int, p: int, l: int, n: int)
    requires p > 0 && h * p + l == n
    ensures h as real + l as real / p as real == n as real / p as real
  {
    MulAsReal(h, p);
    DivShift(l as real, h as real, p as real);
  }

  /** A string that splits at one point into two digit strings is unsigned, of
      the value those digits give. */
  lemma UnsignedOfParts(s: string, hi: string, lo: string)
    requires Split(s, '.') == [hi, lo]
    requires |hi| >= 1 && AllDigits(hi) && |lo| >= 1 && AllDigits(lo)
    ensures IsUnsigned(s)
    ensures UnsignedValue(s) == DigitsValue(hi) as real + DigitsValue(lo) as real / Power10(|lo|) as real
  {
  }

  /** The point-separated digits denote `n / 10^f`. */
  lemma PointDigitsValue(n: nat, f: nat)
    ensures IsUnsigned(PointDigits(n, f))
    ensures UnsignedValue(PointDigits(n, f)) == n as real / Power10(f) as real
  {
    if f == 0 {
      WholeDigitsValue(n);
    } else {
      FractionDigitsValue(n, f);
    }
  }

  lemma WholeDigitsValue(n: nat)
    ensures IsUnsigned(PointDigits(n, 0))
    ensures UnsignedValue(PointDigits(n, 0)) == n as real
  {
    var s := PointDigits(n, 0);
    PadValue(n, 1);
    DigitsHaveNoPoint(s);
    assert Split(s, '.') == [s];
  }

  lemma FractionDigitsValue(n: nat, f: nat)
    requires f > 0
    ensures IsUnsigned(PointDigits(n, f))
    ensures UnsignedValue(PointDigits(n, f)) == n as real / Power10(f) as real
  {
    var s := PointDigits(n, f);
    var m := Pad(n, f + 1);
    PadValue(n, f + 1);
    PointDigitsSplit(n, f);
    var hi := m[..|m| - f];
    var lo := m[|m| - f..];
    UnsignedOfParts(s, hi, lo);
    DigitsValueAppend(hi, lo);
    CombineValue(DigitsValue(hi), Power10(f), DigitsValue(lo), n);
  }

  /** Below 10^21, `toFixed` writes a numeral whose value is `x` rounded to `f` decimals. */
  lemma ToFixedValue(huge: real -> string, x: real, f: nat)
    requires -Threshold < x < Threshold
    ensures IsNumeral(ToFixed(huge, x, f))
    ensures NumeralValue(ToFixed(huge, x, f)) == Rounded(x, f)
  {
    var p := Power10(f) as real;
    var y := if x < 0.0 then -x else x;
    var n := Nearest(y, p);
    PointDigitsValue(n as nat, f);
    var s := ToFixed(huge, x, f);
    if x < 0.0 {
      assert s == "-" + PointDigits(n as nat, f);
      assert s[1..] == PointDigits(n as nat, f);
    } else {
      assert s == PointDigits(n as nat, f);
    }
  }

  /** An integer within half of `y * p` is, divided by `p`, within `0.5 / p` of `y`. */
  lemma ScaledError(n: real, y: real, p: real)
    requires p > 0.0 && -0.5 <= n - y * p <= 0.5
    ensures -0.5 / p <= n / p - y <= 0.5 / p
  {
    var e := n - y * p;
    DivShift(e, y, p);
    assert n == e + y * p;
    DivBound(e, 0.5, p);
  }

  /** The rounding is within half a unit of the last decimal place. */
  lemma RoundedError(x: real, f: nat)
    ensures -0.5 / Power10(f) as real <= Rounded(x, f) - x <= 0.5 / Power10(f) as real
  {
    var p := Power10(f) as real;
    var y := if x < 0.0 then -x else x;
    var n := Nearest(y, p) as real;
    ScaledError(n, y, p);
    var e := n / p - y;
    assert RoundedMagnitude(y, f) == n / p;
    if x < 0.0 {
      assert Rounded(x, f) - x == -e;
    } else {
      assert Rounded(x, f) - x == e;
    }
  }

  /** What `toFixed` writes below 10^21: non-empty, digits and at most a point
      and a leading minus sign, ending in a digit. */
  lemma ToFixedChars(huge: real -> string, x: real, f: nat)
    requires -Threshold < x < Threshold
    ensures var s := ToFixed(huge, x, f);
            |s| >= 1 && IsDigit(s[|s| - 1]) && (IsDigit(s[0]) || s[0] == '-') &&
            forall i :: 0 <= i < |s| ==> IsDigit(s[i]) || s[i] == '.' || s[i] == '-'
  {
  }
}
