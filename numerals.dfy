/**
 * Integer rendering as Python does it: `str(v)`, `str(v).zfill(w)` and the
 * format specs `{v:0w}` and `{v:0wX}`, together with the parser that reads
 * such text back (the digit part of Python's `int(s)` and `int(s, 16)`).
 */
module Numerals {
  import opened Wrappers

  /** The two bases the scripts print in: decimal and hexadecimal. */
  predicate IsBase(base: nat)
  {
    base == 10 || base == 16
  }

  /** Python's `int(x)` on a float: truncation toward zero. */
  function Trunc(x: real): (n: int)
    ensures x >= 0.0 ==> 0 <= n && n as real <= x < n as real + 1.0
    ensures x < 0.0 ==> n as real - 1.0 < x <= n as real <= 0.0
  {
    if x >= 0.0 then x.Floor else -((-x).Floor)
  }

  /** The digits of `n` in `base`, most significant first, no leading zero (`[0]` for zero). */
  function Digits(n: nat, base: nat): (ds: seq<nat>)
    requires IsBase(base)
    ensures |ds| >= 1
    ensures forall i :: 0 <= i < |ds| ==> ds[i] < base
    decreases n
  {
    if n < base then [n] else Digits(n / base, base) + [n % base]
  }

  /** The number a digit sequence denotes. */
  function Value(ds: seq<nat>, base: nat): nat
  {
    if ds == [] then 0 else Value(ds[..|ds| - 1], base) * base + ds[|ds| - 1]
  }

  lemma ValueStep(ds: seq<nat>, d: nat, base: nat)
    ensures Value(ds + [d], base) == Value(ds, base) * base + d
  {
    assert (ds + [d])[..|ds|] == ds;
  }

  function Pow(b: nat, e: nat): nat
  {
    if e == 0 then 1 else b * Pow(b, e - 1)
  }

  lemma {:induction false} ValueOfDigits(n: nat, base: nat)
    requires IsBase(base)
    ensures Value(Digits(n, base), base) == n
    decreases n
  {
    if n >= base {
      var q, r := n / base, n % base;
      var dq := Digits(q, base);
      var ds := dq + [r];
      assert ds == Digits(n, base);
      assert ds[..|ds| - 1] == dq;
      ValueOfDigits(q, base);
      ValueStep(dq, r, base);
      assert q * base + r == n;
    }
  }

  function Zeros(k: nat): (zs: seq<nat>)
    ensures |zs| == k && forall i :: 0 <= i < k ==> zs[i] == 0
  {
    seq(k, _ => 0)
  }

  /** Leading zeros do not change the value. */
  lemma {:induction false} ValueOfZeroFilled(k: nat, ds: seq<nat>, base: nat)
    ensures Value(Zeros(k) + ds, base) == Value(ds, base)
    decreases |ds|, k
  {
    if ds == [] {
      assert Zeros(k) + ds == Zeros(k);
      if k > 0 {
        assert Zeros(k)[..k - 1] == Zeros(k - 1);
        ValueOfZeroFilled(k - 1, [], base);
        assert Zeros(k - 1) + [] == Zeros(k - 1);
      }
    } else {
      var zs := Zeros(k) + ds;
      assert zs[..|zs| - 1] == Zeros(k) + ds[..|ds| - 1];
      ValueOfZeroFilled(k, ds[..|ds| - 1], base);
    }
  }

  lemma {:induction false} PowAtLeastBase(base: nat, e: nat)
    requires IsBase(base) && e >= 1
    ensures Pow(base, e) >= base
    decreases e
  {
    if e > 1 {
      PowAtLeastBase(base, e - 1);
      assert base * Pow(base, e - 1) >= base * 1;
    }
  }

  lemma DivBelow(n: nat, base: nat, p: nat)
    requires IsBase(base)
    ensures n / base < p <==> n < p * base
  {
    var q, r := n / base, n % base;
    assert n == base * q + r && 0 <= r < base;
    if q < p {
      assert base * q <= base * (p - 1);
      assert base * (p - 1) == p * base - base;
    } else {
      assert base * q >= base * p;
    }
  }

  /** `n` has at most `w` digits exactly when it is below `base` to the `w`. */
  lemma {:induction false} DigitCount(n: nat, base: nat, w: nat)
    requires IsBase(base) && w >= 1
    ensures |Digits(n, base)| <= w <==> n < Pow(base, w)
    decreases n
  {
    PowAtLeastBase(base, w);
    if n >= base {
      var q := n / base;
      assert |Digits(n, base)| == |Digits(q, base)| + 1;
      if w == 1 {
        assert Pow(base, 1) == base;
      } else {
        DigitCount(q, base, w - 1);
        DivBelow(n, base, Pow(base, w - 1));
        assert Pow(base, w) == base * Pow(base, w - 1);
      }
    }
  }

  /** More digits means a larger number: digit counts are monotone. */
  lemma DigitCountMonotone(m: nat, n: nat, base: nat)
    requires IsBase(base) && m <= n
    ensures |Digits(m, base)| <= |Digits(n, base)|
  {
    var w := |Digits(n, base)|;
    DigitCount(n, base, w);
    DigitCount(m, base, w);
  }

  /** The character for a digit below 16: '0'..'9', then upper-case 'A'..'F'. */
  function DigitChar(d: nat): char
    requires d < 16
  {
    if d < 10 then ('0' as int + d) as char else ('A' as int + d - 10) as char
  }

  /** The digit a character stands for, if any. */
  function CharDigit(c: char): Option<nat>
  {
    if '0' <= c <= '9' then Some(c as int - '0' as int)
    else if 'A' <= c <= 'F' then Some(c as int - 'A' as int + 10)
    else None
  }

  /** Digit characters, as Python prints them. */
  function Render(ds: seq<nat>): (s: string)
    requires forall i :: 0 <= i < |ds| ==> ds[i] < 16
    ensures |s| == |ds|
  {
    seq(|ds|, i requires 0 <= i < |ds| => DigitChar(ds[i]))
  }

  /** Left-pad digit text with '0' to at least `width` characters, like `str.zfill` does after the sign. */
  function ZeroFill(s: string, width: nat): (r: string)
    ensures |r| == if |s| < width then width else |s|
  {
    if |s| < width then seq(width - |s|, _ => '0') + s else s
  }

  /**
   * Python's `f'{v:0{width}}'` (base 10), `f'{v:0{width}X}'` (base 16) and
   * `str(v).zfill(width)` (base 10): a '-' for a negative value, then the
   * digits of its magnitude, zero-filled so that the text has at least `width`
   * characters; `width` is a minimum and never truncates.
   */
  function Format(v: int, width: nat, base: nat): string
    requires IsBase(base)
  {
    if v < 0 then "-" + ZeroFill(Render(Digits(-v, base)), if width == 0 then 0 else width - 1)
    else ZeroFill(Render(Digits(v, base)), width)
  }

  /** Python's `str(v)` for an integer. */
  function Decimal(v: int): string
  {
    Format(v, 0, 10)
  }

  predicate AllDigits(s: string, base: nat)
  {
    forall i :: 0 <= i < |s| ==> CharDigit(s[i]).Some? && CharDigit(s[i]).value < base
  }

  function DigitValues(s: string): (ds: seq<nat>)
    requires AllDigits(s, 16)
    ensures |ds| == |s|
  {
    seq(|s|, i requires 0 <= i < |s| => CharDigit(s[i]).value)
  }

  /** Unsigned digit text in `base` (upper-case hex digits), or None when it is empty or has another character. */
  function ParseNat(s: string, base: nat): Option<nat>
    requires IsBase(base)
  {
    if |s| > 0 && AllDigits(s, base) then Some(Value(DigitValues(s), base)) else None
  }

  /** Python's `int(s)` restricted to an optional sign and decimal digits. */
  function ParseInt(s: string): Option<int>
  {
    if |s| > 0 && (s[0] == '-' || s[0] == '+') then
      match ParseNat(s[1..], 10)
      case Some(n) => Some(if s[0] == '-' then -(n as int) else n as int)
      case None => None
    else
      match ParseNat(s, 10)
      case Some(n) => Some(n)
      case None => None
  }

  lemma ZeroFillDigits(ds: seq<nat>, width: nat, base: nat)
    requires IsBase(base) && forall i :: 0 <= i < |ds| ==> ds[i] < base
    ensures var s := ZeroFill(Render(ds), width);
      AllDigits(s, base) && DigitValues(s) == (if |ds| < width then Zeros(width - |ds|) else []) + ds
  {
    var s := ZeroFill(Render(ds), width);
    var k := if |ds| < width then width - |ds| else 0;
    assert |s| == k + |ds|;
    forall i | 0 <= i < |s|
      ensures CharDigit(s[i]) == Some(if i < k then 0 else ds[i - k])
    {
      if i >= k {
        assert s[i] == DigitChar(ds[i - k]);
      }
    }
    assert DigitValues(s) == (if |ds| < width then Zeros(width - |ds|) else []) + ds;
  }

  /** Formatted non-negative numbers parse back to themselves, whatever the width. */
  lemma FormatParses(v: nat, width: nat, base: nat)
    requires IsBase(base)
    ensures ParseNat(Format(v, width, base), base) == Some(v)
  {
    var ds := Digits(v, base);
    var s := ZeroFill(Render(ds), width);
    assert Format(v, width, base) == s;
    ZeroFillDigits(ds, width, base);
    ValueOfDigits(v, base);
    var k := if |ds| < width then width - |ds| else 0;
    ValueOfZeroFilled(k, ds, base);
    assert DigitValues(s) == Zeros(k) + ds;
    assert |s| > 0 && AllDigits(s, base);
    assert Value(DigitValues(s), base) == v;
  }

  /** Formatted non-negative numbers contain only digit characters. */
  lemma FormatIsDigits(v: nat, width: nat, base: nat)
    requires IsBase(base)
    ensures AllDigits(Format(v, width, base), base)
  {
    ZeroFillDigits(Digits(v, base), width, base);
  }

  /** The length of a formatted non-negative number: `width`, unless its digits need more. */
  lemma FormatLength(v: nat, width: nat, base: nat)
    requires IsBase(base)
    ensures |Format(v, width, base)| == if |Digits(v, base)| < width then width else |Digits(v, base)|
  {
  }

  /** `str(v)` parses back with `int`, negative numbers included. */
  lemma {:induction false} DecimalParses(v: int)
    ensures ParseInt(Decimal(v)) == Some(v)
  {
    if v < 0 {
      NegativeDecimalParses(v);
    } else {
      var s := Decimal(v);
      FormatParses(v, 0, 10);
      FormatIsDigits(v, 0, 10);
      assert CharDigit(s[0]).Some?;
      assert s[0] != '-' && s[0] != '+';
      assert ParseInt(s) == ParseNat(s, 10);
    }
  }

  lemma NegativeDecimalParses(v: int)
    requires v < 0
    ensures ParseInt(Decimal(v)) == Some(v)
  {
    var digits := Format(-v, 0, 10);
    FormatParses(-v, 0, 10);
    FormatNegative(v, 10);
    ParseIntNegative(Decimal(v), digits, -v);
  }

  /** Without padding, a negative number prints as '-' and then its magnitude. */
  lemma FormatNegative(v: int, base: nat)
    requires v < 0 && IsBase(base)
    ensures Format(v, 0, base) == "-" + Format(-v, 0, base)
  {
  }

  /** A '-' followed by the digits of `n` reads as `-n`. */
  lemma ParseIntNegative(s: string, digits: string, n: nat)
    requires s == "-" + digits && ParseNat(digits, 10) == Some(n)
    ensures ParseInt(s) == Some(-(n as int))
  {
    assert s[0] == '-' && s[1..] == digits;
  }
}
