/**
 * The period labels that `strftime('%Y-%m')` and `strftime('%Y-%m-%d')`
 * produce: decimal numbers zero-padded to four (year) and two (month, day)
 * digits. Labels are dictionary keys of the monthly bar chart, so what
 * matters is that they can be read back, and hence that different months
 * (and different days) never share a label.
 */
module Labels {

  predicate IsDigit(c: char) {
    '0' <= c <= '9'
  }

  predicate AllDigits(s: string) {
    forall i :: 0 <= i < |s| ==> IsDigit(s[i])
  }

  function DigitChar(d: int): (c: char)
    requires 0 <= d <= 9
    ensures IsDigit(c)
  {
    "0123456789"[d]
  }

  function DigitValue(c: char): int
    requires IsDigit(c)
  {
    c as int - '0' as int
  }

  /** The decimal digits of `n`, without leading zeros (what `str(n)` gives). */
  function Digits(n: nat): (s: string)
    ensures |s| >= 1 && AllDigits(s)
  {
    if n < 10 then [DigitChar(n)] else Digits(n / 10) + [DigitChar(n % 10)]
  }

  /** The number a string of decimal digits denotes. */
  function Value(s: string): nat
    requires AllDigits(s)
  {
    if s == [] then 0 else Value(s[..|s| - 1]) * 10 + DigitValue(s[|s| - 1])
  }

  function Zeros(k: nat): (z: string)
    ensures |z| == k && AllDigits(z)
  {
    seq(k, _ => '0')
  }

  /** `n` in decimal, zero-padded on the left to at least `width` characters. */
  function ZeroPad(n: nat, width: nat): (s: string)
    ensures AllDigits(s) && |s| >= width
  {
    var d := Digits(n);
    if |d| >= width then d else Zeros(width - |d|) + d
  }

  /** `strftime('%Y-%m')` of the first day of month `m` of year `y`. */
  function MonthLabel(y: nat, m: nat): string {
    ZeroPad(y, 4) + "-" + ZeroPad(m, 2)
  }

  /** `strftime('%Y-%m-%d')`. */
  function DayLabel(y: nat, m: nat, d: nat): string {
    ZeroPad(y, 4) + "-" + ZeroPad(m, 2) + "-" + ZeroPad(d, 2)
  }

  // ---- Reading labels back ------------------------------------------------

  /** Decimal digits read back to the number they were printed from. */
  lemma {:induction false} DigitsRoundTrip(n: nat)
    ensures Value(Digits(n)) == n
  {
    if n >= 10 {
      DigitsRoundTrip(n / 10);
      var s := Digits(n);
      assert s[..|s| - 1] == Digits(n / 10);
    }
  }

  lemma {:induction false} ValueOfZeros(k: nat)
    ensures Value(Zeros(k)) == 0
  {
    if k > 0 {
      assert Zeros(k)[..k - 1] == Zeros(k - 1);
      ValueOfZeros(k - 1);
    }
  }

  /** Leading zeros do not change the value. */
  lemma {:induction false} LeadingZeros(k: nat, s: string)
    requires AllDigits(s)
    ensures AllDigits(Zeros(k) + s) && Value(Zeros(k) + s) == Value(s)
    decreases |s|
  {
    var t := Zeros(k) + s;
    if s == [] {
      assert t == Zeros(k);
      ValueOfZeros(k);
    } else {
      assert t[..|t| - 1] == Zeros(k) + s[..|s| - 1];
      LeadingZeros(k, s[..|s| - 1]);
    }
  }

  /** Zero-padding read back gives the padded number. */
  lemma {:induction false} ZeroPadRoundTrip(n: nat, width: nat)
    ensures Value(ZeroPad(n, width)) == n
  {
    DigitsRoundTrip(n);
    var d := Digits(n);
    if |d| < width {
      LeadingZeros(width - |d|, d);
    }
  }

  /** Two-digit fields (months, days) always take exactly two characters. */
  lemma {:induction false} TwoDigitWidth(n: nat)
    requires n < 100
    ensures |ZeroPad(n, 2)| == 2
  {
    if n >= 10 {
      assert Digits(n) == Digits(n / 10) + [DigitChar(n % 10)];
    }
  }

  /** The text before and after the last `-` of a label whose last field has two characters. */
  lemma LastField(x: string, c: string)
    requires |c| == 2
    ensures var l := x + "-" + c; |l| == |x| + 3 && l[..|l| - 3] == x && l[|l| - 2..] == c
  {
  }

  /** A month label splits back into its year and its month. */
  lemma {:induction false} MonthLabelFields(y: nat, m: nat)
    requires m < 100
    ensures var l := MonthLabel(y, m);
      && |l| >= 7 && l[..|l| - 3] == ZeroPad(y, 4) && l[|l| - 2..] == ZeroPad(m, 2)
      && Value(l[..|l| - 3]) == y && Value(l[|l| - 2..]) == m
  {
    TwoDigitWidth(m);
    LastField(ZeroPad(y, 4), ZeroPad(m, 2));
    ZeroPadRoundTrip(y, 4);
    ZeroPadRoundTrip(m, 2);
  }

  /** A day label is a month label, a `-` and the two-digit day. */
  lemma {:induction false} DayLabelFields(y: nat, m: nat, d: nat)
    requires m < 100 && d < 100
    ensures var l := DayLabel(y, m, d);
      && |l| >= 10 && l[..|l| - 3] == MonthLabel(y, m) && l[|l| - 2..] == ZeroPad(d, 2)
      && Value(l[|l| - 2..]) == d
  {
    TwoDigitWidth(d);
    LastField(MonthLabel(y, m), ZeroPad(d, 2));
    MonthLabelFields(y, m);
    ZeroPadRoundTrip(d, 2);
  }

  /** Different months have different labels (for months of at most two digits). */
  lemma {:induction false} MonthLabelInjective(y1: nat, m1: nat, y2: nat, m2: nat)
    requires m1 < 100 && m2 < 100
    ensures MonthLabel(y1, m1) == MonthLabel(y2, m2) <==> y1 == y2 && m1 == m2
  {
    MonthLabelFields(y1, m1);
    MonthLabelFields(y2, m2);
  }

  /** Different days have different labels. */
  lemma {:induction false} DayLabelInjective(y1: nat, m1: nat, d1: nat, y2: nat, m2: nat, d2: nat)
    requires m1 < 100 && m2 < 100 && d1 < 100 && d2 < 100
    ensures DayLabel(y1, m1, d1) == DayLabel(y2, m2, d2) <==> y1 == y2 && m1 == m2 && d1 == d2
  {
    if DayLabel(y1, m1, d1) == DayLabel(y2, m2, d2) {
      var l := DayLabel(y1, m1, d1);
      DayLabelFields(y1, m1, d1);
      DayLabelFields(y2, m2, d2);
      assert MonthLabel(y1, m1) == l[..|l| - 3] == MonthLabel(y2, m2);
      assert ZeroPad(d1, 2) == l[|l| - 2..] == ZeroPad(d2, 2);
      MonthLabelInjective(y1, m1, y2, m2);
    }
  }
}
