/** Positional arithmetic over digit strings, and the two ways a number is printed. */
module Decimal {

  predicate IsDigit(c: char) {
    '0' <= c <= '9'
  }

  predicate Digits(s: string) {
    forall k :: 0 <= k < |s| ==> IsDigit(s[k])
  }

  function DigitChar(d: nat): (c: char)
    requires d < 10
    ensures IsDigit(c) && DigitValue(c) == d
  {
    (d + '0' as int) as char
  }

  function DigitValue(c: char): nat
    requires IsDigit(c)
  {
    c as int - '0' as int
  }

  function Value(s: string): nat
    requires Digits(s)
  {
    if s == "" then 0 else 10 * Value(s[..|s| - 1]) + DigitValue(s[|s| - 1])
  }

  function Pow10(k: nat): (p: nat)
    ensures p >= 1
  {
    if k == 0 then 1 else 10 * Pow10(k - 1)
  }

  /** n times the k-th power of ten. */
  function Shift(n: nat, k: nat): nat
    decreases k
  {
    if k == 0 then n else Shift(10 * n, k - 1)
  }

  /** The decimal text of n without leading zeros. */
  function IntText(n: nat): (s: string)
    ensures Digits(s) && Value(s) == n
    ensures NoLeadingZero(s)
  {
    if n < 10 then [DigitChar(n)] else
      var front := IntText(n / 10);
      var s := front + [DigitChar(n % 10)];
      assert s[..|s| - 1] == front;
      s
  }

  /** The last w digits of n, padded with zeros on the left. */
  function FixedText(n: nat, w: nat): (s: string)
    ensures Digits(s) && |s| == w
    ensures n < Pow10(w) ==> Value(s) == n
  {
    if w == 0 then "" else
      var front := FixedText(n / 10, w - 1);
      var s := front + [DigitChar(n % 10)];
      assert s[..|s| - 1] == front;
      s
  }

  lemma {:induction false} Pow10Monotone(a: nat, b: nat)
    requires a <= b
    ensures Pow10(a) <= Pow10(b)
  {
    if a < b { Pow10Monotone(a, b - 1); }
  }

  lemma Pow10Between(a: nat, n: nat, b: nat)
    requires Pow10(a) <= n < Pow10(b)
    ensures a < b
  {
    if b <= a { Pow10Monotone(b, a); }
  }

  lemma {:induction false} ValueBound(s: string)
    requires Digits(s)
    ensures Value(s) < Pow10(|s|)
  {
    if s != "" { ValueBound(s[..|s| - 1]); }
  }

  lemma {:induction false} LeadingZero(s: string)
    requires Digits(s) && s != "" && s[0] == '0'
    ensures Value(s) == Value(s[1..])
  {
    if |s| > 1 {
      LeadingZero(s[..|s| - 1]);
      assert s[..|s| - 1][1..] == s[1..][..|s[1..]| - 1];
    } else {
      assert s[1..] == "" && s[..0] == "";
    }
  }

  lemma {:induction false} ShiftPositive(n: nat, k: nat)
    ensures Shift(n, k) > 0 <==> n > 0
    decreases k
  {
    if k > 0 { ShiftPositive(10 * n, k - 1); }
  }

  lemma {:induction false} ShiftBound(n: nat, k: nat, w: nat)
    requires k <= w && n < Pow10(w - k)
    ensures Shift(n, k) < Pow10(w)
    decreases k
  {
    if k > 0 { ShiftBound(10 * n, k - 1, w); }
  }

  lemma {:induction false} ShiftInjective(a: nat, b: nat, k: nat)
    requires Shift(a, k) == Shift(b, k)
    ensures a == b
    decreases k
  {
    if k > 0 { ShiftInjective(10 * a, 10 * b, k - 1); }
  }

  lemma {:induction false} ShiftSplit(n: nat, j: nat, k: nat)
    ensures Shift(n, j + k) == Shift(Shift(n, j), k)
    decreases j
  {
    if j > 0 { ShiftSplit(10 * n, j - 1, k); }
  }

  lemma {:induction false} ShiftMultiple(n: nat, k: nat)
    requires k > 0
    ensures Shift(n, k) % 10 == 0
    decreases k
  {
    if k > 1 { ShiftMultiple(10 * n, k - 1); } else { assert Shift(10 * n, 0) == 10 * n; }
  }

  /** A digit string that does not start with a zero is at least the power of ten of its length. */
  lemma {:induction false} ValueAtLeast(s: string)
    requires Digits(s) && s != "" && s[0] != '0'
    ensures Value(s) >= Pow10(|s| - 1)
  {
    if |s| > 1 { ValueAtLeast(s[..|s| - 1]); } else { assert s[..0] == ""; }
  }

  lemma LastDigit(x: nat, d: nat, y: nat, e: nat)
    requires d < 10 && e < 10 && 10 * x + d == 10 * y + e
    ensures x == y && d == e
  {
  }

  lemma {:induction false} SameLengthInjective(a: string, b: string)
    requires Digits(a) && Digits(b) && |a| == |b| && Value(a) == Value(b)
    ensures a == b
  {
    if |a| > 0 {
      var n := |a| - 1;
      LastDigit(Value(a[..n]), DigitValue(a[n]), Value(b[..n]), DigitValue(b[n]));
      SameLengthInjective(a[..n], b[..n]);
      assert a == a[..n] + [a[n]] && b == b[..n] + [b[n]];
    }
  }

  predicate NoLeadingZero(s: string) {
    |s| > 0 && (s[0] == '0' ==> |s| == 1)
  }

  lemma IntTextUnique(a: string, b: string)
    requires Digits(a) && Digits(b) && NoLeadingZero(a) && NoLeadingZero(b)
    requires Value(a) == Value(b)
    ensures a == b
  {
    ValueBound(a);
    ValueBound(b);
    if a[0] != '0' && b[0] != '0' {
      ValueAtLeast(a);
      ValueAtLeast(b);
      Pow10Between(|a| - 1, Value(a), |b|);
      Pow10Between(|b| - 1, Value(b), |a|);
    } else if a[0] != '0' {
      ValueAtLeast(a);
    } else if b[0] != '0' {
      ValueAtLeast(b);
    }
    SameLengthInjective(a, b);
  }

  lemma IntTextLength(s: string, k: nat)
    requires Digits(s) && NoLeadingZero(s) && k >= 1 && Value(s) < Pow10(k)
    ensures |s| <= k
  {
    if s[0] != '0' {
      ValueAtLeast(s);
      Pow10Between(|s| - 1, Value(s), k);
    }
  }

  /** Fractions without a trailing zero are determined by their value at a common width. */
  lemma FractionUnique(a: string, b: string, w: nat)
    requires Digits(a) && Digits(b) && |a| <= |b| <= w
    requires b != "" ==> b[|b| - 1] != '0'
    requires Shift(Value(a), w - |a|) == Shift(Value(b), w - |b|)
    ensures a == b
  {
    ShiftSplit(Value(a), |b| - |a|, w - |b|);
    ShiftInjective(Shift(Value(a), |b| - |a|), Value(b), w - |b|);
    if |a| < |b| { ShiftMultiple(Value(a), |b| - |a|); }
    SameLengthInjective(a, b);
  }
}
