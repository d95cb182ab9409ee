/**
 Exact decimal rates: the parser, the canonical language it prints, and the
 NUMERIC(30,15) column a rate is stored in.
 */
module Rate {
  import opened Domain
  import opened Decimal

  const NUMERIC_LIMIT: nat := 1_000_000_000_000_000_000_000_000_000_000

  lemma ScaleIsPow10()
    ensures Pow10(15) == 1_000_000_000_000_000
  {
    assert Pow10(5) == 100_000;
    assert Pow10(10) == 10_000_000_000;
  }

  // ---- trimming and splitting text

  /** The code points that Go's unicode.IsSpace accepts. */
  predicate IsSpace(c: char) {
    c in "\t\n\U{000B}\U{000C}\r \U{0085}\U{00A0}\U{1680}\U{2028}\U{2029}\U{202F}\U{205F}\U{3000}"
    || '\U{2000}' <= c <= '\U{200A}'
  }

  /** The characters a trim removes. */
  datatype Cutset = Space | Zero {
    predicate Has(c: char) {
      if Space? then IsSpace(c) else c == '0'
    }
  }

  /** The first position at or after k that a trim from the left keeps. */
  function SkipFrom(s: string, cut: Cutset, k: nat): (n: nat)
    requires k <= |s|
    ensures k <= n <= |s| && (n < |s| ==> !cut.Has(s[n]))
    ensures forall j :: k <= j < n ==> cut.Has(s[j])
    decreases |s| - k
  {
    if k == |s| || !cut.Has(s[k]) then k else SkipFrom(s, cut, k + 1)
  }

  /** How many of the first k characters a trim from the right keeps. */
  function KeepUpTo(s: string, cut: Cutset, k: nat): (n: nat)
    requires k <= |s|
    ensures n <= k && (n > 0 ==> !cut.Has(s[n - 1]))
    ensures forall j :: n <= j < k ==> cut.Has(s[j])
  {
    if k == 0 || !cut.Has(s[k - 1]) then k else KeepUpTo(s, cut, k - 1)
  }

  function TrimLeft(s: string, cut: Cutset): string {
    s[SkipFrom(s, cut, 0)..]
  }

  function TrimRight(s: string, cut: Cutset): string {
    s[..KeepUpTo(s, cut, |s|)]
  }

  function TrimSpace(s: string): string {
    TrimRight(TrimLeft(s, Space), Space)
  }

  /** The position of the first point at or after k, or the length of s if there is none. */
  function DotFrom(s: string, k: nat): (d: nat)
    requires k <= |s|
    ensures k <= d <= |s| && (d < |s| ==> s[d] == '.')
    ensures forall j :: k <= j < d ==> s[j] != '.'
    decreases |s| - k
  {
    if k == |s| || s[k] == '.' then k else DotFrom(s, k + 1)
  }

  function DotAt(s: string): nat {
    DotFrom(s, 0)
  }

  /** A text split at its first point. */
  datatype Written = Written(integer: string, fraction: string, point: bool)

  function Split(s: string): Written {
    var d := DotAt(s);
    if d < |s| then Written(s[..d], s[d + 1..], true) else Written(s, "", false)
  }

  function Join(w: Written): string {
    if w.point then w.integer + "." + w.fraction else w.integer
  }

  lemma SplitJoin(s: string)
    ensures Join(Split(s)) == s
  {
    var d := DotAt(s);
    if d < |s| { assert s == s[..d] + [s[d]] + s[d + 1..]; }
  }

  lemma JoinSplit(w: Written)
    requires '.' !in w.integer && (!w.point ==> w.fraction == "")
    ensures Split(Join(w)) == w
  {
    var s, d := Join(w), |w.integer|;
    assert forall k :: 0 <= k < d ==> s[k] == w.integer[k] != '.';
    assert DotAt(s) >= d;
    if w.point {
      assert s[d] == '.' && DotAt(s) == d;
      assert s[..d] == w.integer && s[d + 1..] == w.fraction;
    }
  }

  // ---- the language and its meaning

  /** Digits with at most one point, at most 15 written digits on either side of it. */
  predicate PlainParts(w: Written) {
    && Digits(w.integer) && |w.integer| <= 15
    && Digits(w.fraction) && |w.fraction| <= 15
  }

  /** The number that the parts denote, in units of 10^-15. */
  function ScaledParts(w: Written): nat
    requires PlainParts(w)
  {
    Shift(Value(w.integer), 15) + Shift(Value(w.fraction), 15 - |w.fraction|)
  }

  /** No zero that does not count, and no point without a fraction. */
  predicate CanonicalParts(w: Written) {
    && PlainParts(w)
    && NoLeadingZero(w.integer)
    && (w.point <==> |w.fraction| > 0)
    && (|w.fraction| > 0 ==> w.fraction[|w.fraction| - 1] != '0')
    && (w.integer[0] == '0' ==> |w.fraction| > 0)
  }

  predicate Plain(s: string) {
    PlainParts(Split(s))
  }

  function Scaled(s: string): nat
    requires Plain(s)
  {
    ScaledParts(Split(s))
  }

  /** The Rate pattern of the public API. */
  predicate Canonical(s: string) {
    CanonicalParts(Split(s))
  }

  lemma ShiftByScale(n: nat)
    ensures Shift(n, 15) == n * 1_000_000_000_000_000
  {
    ShiftSplit(n, 5, 10);
    ShiftSplit(100_000 * n, 5, 5);
    ShiftByFive(n);
    ShiftByFive(100_000 * n);
    ShiftByFive(10_000_000_000 * n);
  }

  lemma ShiftByFive(n: nat)
    ensures Shift(n, 5) == 100_000 * n
  {
    assert Shift(n, 5) == Shift(10 * n, 4) == Shift(100 * n, 3) == Shift(1_000 * n, 2);
  }

  lemma ScaledBound(w: Written)
    requires PlainParts(w)
    ensures ScaledParts(w) < NUMERIC_LIMIT
    ensures ScaledParts(w) / 1_000_000_000_000_000 == Value(w.integer)
    ensures ScaledParts(w) % 1_000_000_000_000_000 == Shift(Value(w.fraction), 15 - |w.fraction|)
  {
    ScaleIsPow10();
    ShiftByScale(Value(w.integer));
    ValueBound(w.fraction);
    ShiftBound(Value(w.fraction), 15 - |w.fraction|, 15);
    ValueBound(w.integer);
    Pow10Monotone(|w.integer|, 15);
  }

  lemma CanonicalIsPositive(w: Written)
    requires CanonicalParts(w)
    ensures 0 < ScaledParts(w) < NUMERIC_LIMIT
  {
    ScaledBound(w);
    if w.integer[0] != '0' {
      ValueAtLeast(w.integer);
      ShiftPositive(Value(w.integer), 15);
    } else {
      ShiftPositive(Value(w.fraction), 15 - |w.fraction|);
    }
  }

  lemma CanonicalPartsUnique(a: Written, b: Written)
    requires CanonicalParts(a) && CanonicalParts(b) && ScaledParts(a) == ScaledParts(b)
    ensures a == b
  {
    ScaledBound(a);
    ScaledBound(b);
    IntTextUnique(a.integer, b.integer);
    if |a.fraction| <= |b.fraction| {
      FractionUnique(a.fraction, b.fraction, 15);
    } else {
      FractionUnique(b.fraction, a.fraction, 15);
    }
  }

  /** A canonical text is determined by the number it denotes. */
  lemma CanonicalUnique(a: string, b: string)
    requires Canonical(a) && Canonical(b) && Scaled(a) == Scaled(b)
    ensures a == b
  {
    CanonicalPartsUnique(Split(a), Split(b));
    SplitJoin(a);
    SplitJoin(b);
  }

  // ---- parsing

  /** A positive plain decimal, after surrounding white space is dropped. */
  predicate Accepted(value: string) {
    Plain(TrimSpace(value)) && Scaled(TrimSpace(value)) > 0
  }

  /** What parsing promises: the canonical text of the same number, or nothing. */
  predicate Reads(value: string, rate: Option<string>) {
    match rate
    case None => !Accepted(value)
    case Some(text) => Accepted(value) && Canonical(text) && Scaled(text) == Scaled(TrimSpace(value))
  }

  /** Two accepted texts have the same result exactly when they denote the same number. */
  lemma ReadsSameIffEqual(a: string, ra: string, b: string, rb: string)
    requires Reads(a, Some(ra)) && Reads(b, Some(rb))
    ensures ra == rb <==> Scaled(TrimSpace(a)) == Scaled(TrimSpace(b))
  {
    if Scaled(ra) == Scaled(rb) { CanonicalUnique(ra, rb); }
  }

  /** Reading is the identity on the canonical language, and only there. */
  lemma ReadsFixesCanonical(s: string, rate: Option<string>)
    requires Reads(s, rate)
    ensures Canonical(s) <==> rate == Some(s)
  {
    if Canonical(s) {
      CanonicalIsPositive(Split(s));
      CanonicalHasNoSpace(s);
      CanonicalUnique(s, rate.value);
    }
  }

  lemma NoSpaceAtEnds(s: string)
    requires s != "" && !IsSpace(s[0]) && !IsSpace(s[|s| - 1])
    ensures TrimSpace(s) == s
  {
    assert TrimLeft(s, Space) == s;
  }

  lemma DigitIsNotSpace(c: char)
    requires IsDigit(c)
    ensures !IsSpace(c)
  {
  }

  lemma CanonicalHasNoSpace(s: string)
    requires Canonical(s)
    ensures TrimSpace(s) == s
  {
    var w := Split(s);
    SplitJoin(s);
    assert s[0] == w.integer[0];
    DigitIsNotSpace(s[0]);
    if w.point {
      assert s[|s| - 1] == w.fraction[|w.fraction| - 1];
    }
    DigitIsNotSpace(s[|s| - 1]);
    NoSpaceAtEnds(s);
  }

  function CountDots(s: string): (n: nat)
    ensures n == 0 <==> '.' !in s
  {
    if s == "" then 0 else CountDots(s[..|s| - 1]) + if s[|s| - 1] == '.' then 1 else 0
  }

  /** A second point is a point in the fraction part. */
  lemma {:induction false} TwoDots(s: string)
    requires CountDots(s) > 1
    ensures DotAt(s) < |s| && '.' in s[DotAt(s) + 1..]
  {
    var n := |s| - 1;
    var front := s[..n];
    assert s == front + [s[n]];
    if s[n] == '.' {
      var k :| 0 <= k < n && front[k] == '.';
      assert DotAt(s) <= k;
      assert s[DotAt(s) + 1..][n - DotAt(s) - 1] == '.';
    } else {
      TwoDots(front);
      SameFirstDot(front, s);
      var k :| DotAt(front) + 1 <= k < n && front[k] == '.';
      assert s[DotAt(s) + 1..][k - DotAt(s) - 1] == '.';
    }
  }

  lemma SameFirstDot(front: string, s: string)
    requires front <= s && DotAt(front) < |front|
    ensures DotAt(front) == DotAt(s)
  {
    assert s[DotAt(front)] == '.';
    assert forall k :: 0 <= k < DotAt(front) ==> s[k] == front[k];
  }

  predicate ContainsAny(s: string, chars: string) {
    exists k :: 0 <= k < |s| && s[k] in chars
  }

  lemma SignIsNotPlain(s: string)
    requires ContainsAny(s, "eE+-")
    ensures !Plain(s)
  {
    var w, d := Split(s), DotAt(s);
    var k :| 0 <= k < |s| && s[k] in "eE+-";
    assert !IsDigit(s[k]);
    if k < d {
      assert w.integer[k] == s[k];
    } else {
      assert w.fraction[k - d - 1] == s[k];
    }
  }

  lemma TwoDotsAreNotPlain(s: string)
    requires CountDots(s) > 1
    ensures !Plain(s)
  {
    TwoDots(s);
    var f := Split(s).fraction;
    var k :| 0 <= k < |f| && f[k] == '.';
    assert !IsDigit(f[k]);
  }

  /** Dropping leading zeros keeps the value of an integer part. */
  lemma {:induction false} DropLeadingZeros(i: string, k: nat)
    requires Digits(i) && k <= |i| && forall j :: 0 <= j < k ==> i[j] == '0'
    ensures Digits(i[k..]) && Value(i[k..]) == Value(i)
  {
    if k > 0 {
      DropLeadingZeros(i, k - 1);
      LeadingZero(i[k - 1..]);
      assert i[k - 1..][1..] == i[k..];
    } else {
      assert i[0..] == i;
    }
  }

  /** Dropping trailing zeros keeps what a fraction part contributes. */
  lemma {:induction false} DropTrailingZeros(f: string, k: nat, w: nat)
    requires Digits(f) && k <= |f| <= w && forall j :: k <= j < |f| ==> f[j] == '0'
    ensures Digits(f[..k]) && Shift(Value(f[..k]), w - k) == Shift(Value(f), w - |f|)
    decreases |f| - k
  {
    if k < |f| {
      DropTrailingZeros(f, k + 1, w);
      assert f[..k + 1][..k] == f[..k];
    } else {
      assert f[..k] == f;
    }
  }

  /** The parts that are left when the zeros that do not count are dropped. */
  function Trimmed(w: Written): Written {
    var integer, fraction := TrimLeft(w.integer, Zero), TrimRight(w.fraction, Zero);
    Written(OrZero(integer), fraction, |fraction| > 0)
  }

  lemma EmptyIntegerIsZero(w: Written)
    requires w.integer == ""
    ensures Trimmed(w) == Trimmed(w.(integer := "0"))
  {
  }

  function OrZero(integer: string): string {
    if |integer| == 0 then "0" else integer
  }

  /** Neither part has a digit that counts. */
  predicate NothingLeft(w: Written) {
    |w.integer| == 1 && w.integer[0] == '0' && |w.fraction| == 0
  }

  lemma TrimmedIntegerPart(i: string)
    requires Digits(i) && |i| <= 15
    ensures var t := OrZero(TrimLeft(i, Zero));
            Digits(t) && |t| <= 15 && NoLeadingZero(t) && Value(t) == Value(i)
  {
    DropLeadingZeros(i, SkipFrom(i, Zero, 0));
  }

  lemma TrimmedFractionPart(f: string, w: nat)
    requires Digits(f) && |f| <= w
    ensures var t := TrimRight(f, Zero);
            && Digits(t) && |t| <= w && Shift(Value(t), w - |t|) == Shift(Value(f), w - |f|)
            && (|t| > 0 ==> t[|t| - 1] != '0')
  {
    DropTrailingZeros(f, KeepUpTo(f, Zero, |f|), w);
  }

  lemma TrimmedParts(w: Written)
    requires PlainParts(w)
    ensures var t := Trimmed(w);
            && PlainParts(t) && ScaledParts(t) == ScaledParts(w)
            && (!NothingLeft(t) ==> CanonicalParts(t))
  {
    TrimmedIntegerPart(w.integer);
    TrimmedFractionPart(w.fraction, 15);
    SameParts(Trimmed(w), w);
  }

  lemma SameParts(a: Written, b: Written)
    requires PlainParts(a) && PlainParts(b) && Value(a.integer) == Value(b.integer)
    requires Shift(Value(a.fraction), 15 - |a.fraction|) == Shift(Value(b.fraction), 15 - |b.fraction|)
    ensures ScaledParts(a) == ScaledParts(b)
  {
  }

  lemma ZeroParts(w: Written)
    requires PlainParts(w) && NothingLeft(w)
    ensures ScaledParts(w) == 0
  {
    assert Value(w.integer) == 0 && Value(w.fraction) == 0;
    ShiftPositive(0, 15);
  }

  /** The trimmed parts of a plain decimal, joined again, unless nothing is left of them. */
  function Normalised(text: string): Option<string> {
    if Plain(text) && !NothingLeft(Trimmed(Split(text))) then Some(Join(Trimmed(Split(text)))) else None
  }

  lemma JoinReads(value: string, w: Written, t: Written)
    requires w == Split(TrimSpace(value)) && PlainParts(w)
    requires PlainParts(t) && ScaledParts(t) == ScaledParts(w)
    requires !NothingLeft(t) ==> CanonicalParts(t)
    ensures Reads(value, if NothingLeft(t) then None else Some(Join(t)))
  {
    if NothingLeft(t) {
      ZeroParts(t);
    } else {
      CanonicalIsPositive(t);
      JoinSplit(t);
    }
  }

  /** Dropping the zeros that do not count prints the number canonically. */
  lemma NormalisedReads(value: string)
    ensures Reads(value, Normalised(TrimSpace(value)))
  {
    var text := TrimSpace(value);
    if Plain(text) {
      TrimmedParts(Split(text));
      JoinReads(value, Split(text), Trimmed(Split(text)));
    }
  }

  method AllDigits(value: string) returns (ok: bool)
    ensures ok <==> value != "" && Digits(value)
  {
    if value == "" { return false; }
    for k := 0 to |value|
      invariant Digits(value[..k])
    {
      if value[k] < '0' || value[k] > '9' {
        assert !IsDigit(value[k]);
        return false;
      }
      assert value[..k + 1] == value[..k] + [value[k]];
    }
    assert value[..|value|] == value;
    return true;
  }

  method ParseRate(value: string) returns (rate: Option<string>)
    ensures Reads(value, rate)
  {
    NormalisedReads(value);
    rate := ParseTrimmed(TrimSpace(value));
  }

  method ParseTrimmed(text: string) returns (rate: Option<string>)
    ensures rate == Normalised(text)
  {
    if text == "" || ContainsAny(text, "eE+-") || CountDots(text) > 1 {
      if ContainsAny(text, "eE+-") { SignIsNotPlain(text); }
      if CountDots(text) > 1 { TwoDotsAreNotPlain(text); }
      return None;
    }
    var parts := Split(text);
    var integer, fraction := parts.integer, parts.fraction;
    if integer == "" {
      integer := "0";
      EmptyIntegerIsZero(parts);
    }
    assert Trimmed(Written(integer, fraction, true)) == Trimmed(parts);
    var integerOk := AllDigits(integer);
    var fractionOk := AllDigits(fraction);
    if !integerOk || (fraction != "" && !fractionOk) {
      return None;
    }
    if |integer| > 15 || |fraction| > 15 {
      return None;
    }
    rate := PrintParts(integer, fraction);
  }

  /** The end of the parser: drop the zeros that do not count and join what is left. */
  method PrintParts(digits: string, decimals: string) returns (rate: Option<string>)
    ensures var t := Trimmed(Written(digits, decimals, true));
            rate == if NothingLeft(t) then None else Some(Join(t))
  {
    var integer := TrimLeft(digits, Zero);
    if integer == "" {
      integer := "0";
    }
    var fraction := TrimRight(decimals, Zero);
    if integer == "0" && fraction == "" {
      return None;
    }
    if fraction == "" {
      return Some(integer);
    }
    return Some(integer + "." + fraction);
  }

  // ---- the NUMERIC(30,15) column

  /** The column's text form: every value is printed with 15 fraction digits. */
  function NumericText(n: nat): string {
    Join(NumericParts(n))
  }

  function NumericParts(n: nat): Written {
    Written(IntText(n / 1_000_000_000_000_000), FixedText(n % 1_000_000_000_000_000, 15), true)
  }

  lemma NumericIsPlain(n: nat)
    requires n < NUMERIC_LIMIT
    ensures PlainParts(NumericParts(n)) && ScaledParts(NumericParts(n)) == n
    ensures Split(NumericText(n)) == NumericParts(n)
  {
    ScaleIsPow10();
    ShiftByScale(n / 1_000_000_000_000_000);
    IntTextLength(IntText(n / 1_000_000_000_000_000), 15);
    JoinSplit(NumericParts(n));
  }

  lemma NumericHasNoSpace(n: nat)
    ensures TrimSpace(NumericText(n)) == NumericText(n)
  {
    var w, s := NumericParts(n), NumericText(n);
    assert s[0] == w.integer[0] && s[|s| - 1] == w.fraction[14];
    DigitIsNotSpace(s[0]);
    DigitIsNotSpace(s[|s| - 1]);
    NoSpaceAtEnds(s);
  }

  /** Every value the column's check admits is read back, as a canonical text of that value. */
  lemma NumericReads(n: nat, rate: Option<string>)
    requires 0 < n < NUMERIC_LIMIT && Reads(NumericText(n), rate)
    ensures rate.Some? && Canonical(rate.value) && Scaled(rate.value) == n
  {
    NumericIsPlain(n);
    NumericHasNoSpace(n);
  }

  /** A canonical rate written to the column and read back is the same text. */
  lemma StorageRoundTrip(text: string, rate: Option<string>)
    requires Canonical(text) && Reads(NumericText(Scaled(text)), rate)
    ensures 0 < Scaled(text) < NUMERIC_LIMIT
    ensures rate == Some(text)
  {
    CanonicalIsPositive(Split(text));
    NumericReads(Scaled(text), rate);
    CanonicalUnique(text, rate.value);
  }
}
