/** `Format::humanReadableSize`: a byte count as "<value> <unit>" with
    1024-based units, the value rounded to two decimals. The logarithm, power
    and rounding are stated in exact integer arithmetic: the unit index is the
    largest `i` with 1024^i <= n, and the value is kept as a count of
    hundredths. */
module Format {
  import opened PhpBuiltins

  const UNITS: seq<string> := ["B", "KB", "MB", "GB", "TB"]

  function Pow1024(i: nat): (p: nat)
    ensures p >= 1
  {
    if i == 0 then 1 else 1024 * Pow1024(i - 1)
  }

  lemma {:induction false} Pow1024Monotone(a: nat, b: nat)
    requires a <= b
    ensures Pow1024(a) <= Pow1024(b)
  {
    if a < b {
      Pow1024Monotone(a, b - 1);
    }
  }

  /** floor(log_1024(n)) for a positive `n`. */
  function Log1024(n: nat): (i: nat)
    requires n >= 1
    ensures Pow1024(i) <= n < Pow1024(i + 1)
  {
    if n < 1024 then 0 else 1 + Log1024(n / 1024)
  }

  /** The unit index: floor(log_1024(n)) for n >= 1, and 1 (KB) for 0. */
  function UnitIndex(n: nat): (i: nat)
    requires n < Pow1024(5)
    ensures i < |UNITS|
    ensures n == 0 ==> i == 1
    ensures n >= 1 ==> Pow1024(i) <= n < Pow1024(i + 1)
  {
    if n == 0 then 1
    else
      Log1024BelowFive(n);
      Log1024(n)
  }

  lemma Log1024BelowFive(n: nat)
    requires 1 <= n < Pow1024(5)
    ensures Log1024(n) < 5
  {
    var i := Log1024(n);
    if i >= 5 {
      Pow1024Monotone(5, i);
    }
  }

  /** round(n / 1024^i, 2), as a count of hundredths: the integer nearest to
      100 * n / 1024^i, a half rounded up (away from zero, as PHP rounds). */
  function RoundedHundredths(n: nat, i: nat): (h: nat)
    ensures h * (2 * Pow1024(i)) <= 200 * n + Pow1024(i) < (h + 1) * (2 * Pow1024(i))
  {
    var d := Pow1024(i);
    var a, m := 200 * n + d, 2 * d;
    DivBounds(a, m);
    a / m
  }

  lemma DivBounds(a: nat, m: nat)
    requires m > 0
    ensures a / m >= 0
    ensures (a / m) * m <= a < (a / m + 1) * m
  {
    var q, r := a / m, a % m;
    assert a == q * m + r && 0 <= r < m;
    assert (q + 1) * m == q * m + m;
  }

  lemma MulLessCancel(a: nat, b: nat, m: nat)
    requires a * m < b * m
    ensures a < b
  {
  }

  /** The two digits after the point, trailing zeros dropped, the point
      dropped with them. */
  function FractionText(f: nat): string
    requires f < 100
  {
    if f == 0 then ""
    else if f % 10 == 0 then "." + [DigitChar(f / 10)]
    else "." + [DigitChar(f / 10), DigitChar(f % 10)]
  }

  /** A count of hundredths printed the way PHP prints the rounded float:
      the whole part, then the non-zero decimals. */
  function HundredthsText(h: nat): string {
    NatToDecimal(h / 100) + FractionText(h % 100)
  }

  /** `Format::humanReadableSize($sizeInBytes)`. */
  function HumanReadableSize(n: nat): string
    requires n < Pow1024(5)
  {
    var i := UnitIndex(n);
    HundredthsText(RoundedHundredths(n, i)) + " " + UNITS[i]
  }

  /** Reads a number such as "1024", "1.5" or "1.13" back as hundredths. */
  function ReadHundredths(s: string): Option<nat> {
    match IndexOf(s, '.')
    case None =>
      if s != "" && AllDigits(s) then Some(100 * DecimalValue(s)) else None
    case Some(k) =>
      var whole := s[..k];
      var frac := s[k + 1..];
      if whole != "" && AllDigits(whole) && 1 <= |frac| <= 2 && AllDigits(frac)
      then Some(100 * DecimalValue(whole) + (if |frac| == 1 then 10 * DecimalValue(frac) else DecimalValue(frac)))
      else None
  }

  /** Reading a printed count of hundredths gives it back, and the printed
      form never ends in a zero decimal. */
  lemma HundredthsTextRoundTrip(h: nat)
    ensures ReadHundredths(HundredthsText(h)) == Some(h)
    ensures var s := HundredthsText(h); IndexOf(s, '.').Some? ==> s[|s| - 1] != '0'
  {
    var whole := NatToDecimal(h / 100);
    DecimalRoundTrip(h / 100);
    assert IndexOf(whole, '.').None?;
    if h % 100 == 0 {
      assert HundredthsText(h) == whole;
      assert ReadHundredths(whole) == Some(100 * (h / 100));
    } else {
      FractionRoundTrip(whole, h / 100, h % 100);
      assert 100 * (h / 100) + h % 100 == h;
    }
  }

  /** A whole part followed by a non-zero fraction reads back as both. */
  lemma FractionRoundTrip(whole: string, w: nat, f: nat)
    requires 0 < f < 100
    requires whole == NatToDecimal(w) && DecimalValue(whole) == w
    requires IndexOf(whole, '.').None?
    ensures var s := whole + FractionText(f);
      && ReadHundredths(s) == Some(100 * w + f)
      && IndexOf(s, '.').Some? && s[|s| - 1] != '0'
  {
    var frac := if f % 10 == 0 then [DigitChar(f / 10)] else [DigitChar(f / 10), DigitChar(f % 10)];
    var s := whole + "." + frac;
    assert whole + FractionText(f) == s;
    assert s[..|whole|] == whole;
    assert s[|whole| + 1..] == frac;
    IndexOfIs(s, '.', |whole|);
    FractionValue(f, frac);
  }

  /** The digits of a fraction denote it, counted in tenths or hundredths. */
  lemma FractionValue(f: nat, frac: string)
    requires 0 < f < 100
    requires frac == if f % 10 == 0 then [DigitChar(f / 10)] else [DigitChar(f / 10), DigitChar(f % 10)]
    ensures AllDigits(frac)
    ensures (if |frac| == 1 then 10 * DecimalValue(frac) else DecimalValue(frac)) == f
    ensures frac[|frac| - 1] != '0'
  {
    if |frac| == 1 {
      assert frac[..0] == [];
    } else {
      assert frac[..1] == [DigitChar(f / 10)];
      assert frac[..1][..0] == [];
      assert DecimalValue(frac[..1]) == f / 10;
      assert DecimalValue(frac) == 10 * (f / 10) + f % 10;
    }
  }

  /** humanReadableSize(n) is a number, one space and the unit chosen by
      UnitIndex, and the number reads back as n / 1024^i rounded to
      hundredths. The number starts with a zero only for size 0 (no
      leading zeros). */
  lemma HumanReadableSizeReadsBack(n: nat)
    requires n < Pow1024(5)
    ensures var i := UnitIndex(n); var r := HumanReadableSize(n);
      var t := r[..|r| - |UNITS[i]| - 1];
      && |r| > |UNITS[i]| + 1
      && r[|r| - |UNITS[i]| - 1..] == " " + UNITS[i]
      && ReadHundredths(t) == Some(RoundedHundredths(n, i))
      && (t[0] == '0' <==> n == 0)
  {
    var i := UnitIndex(n);
    var h := RoundedHundredths(n, i);
    var t := HundredthsText(h);
    var r := HumanReadableSize(n);
    assert r == t + " " + UNITS[i];
    assert r[..|r| - |UNITS[i]| - 1] == t;
    assert r[|r| - |UNITS[i]| - 1..] == " " + UNITS[i];
    HundredthsTextRoundTrip(h);
    NoLeadingZero(n);
  }

  /** The printed number of a size starts with '0' only for size 0. */
  lemma NoLeadingZero(n: nat)
    requires n < Pow1024(5)
    ensures var t := HundredthsText(RoundedHundredths(n, UnitIndex(n)));
      |t| > 0 && (t[0] == '0' <==> n == 0)
  {
    var h := RoundedHundredths(n, UnitIndex(n));
    var t := HundredthsText(h);
    assert t[0] == NatToDecimal(h / 100)[0];
    if n == 0 {
      assert h == 0;
      assert NatToDecimal(0) == "0";
    } else {
      ScaledValueRange(n);
      assert h / 100 >= 1;
    }
  }

  /** For a positive size the printed value lies between 1 and 1024 (1024
      itself is reached by rounding, e.g. for 1048575 bytes). */
  lemma ScaledValueRange(n: nat)
    requires 1 <= n < Pow1024(5)
    ensures 100 <= RoundedHundredths(n, UnitIndex(n)) <= 102400
  {
    var i := UnitIndex(n);
    var d := Pow1024(i);
    var h := RoundedHundredths(n, i);
    assert Pow1024(i + 1) == 1024 * d;
    assert d <= n < 1024 * d;
    assert 100 * (2 * d) < 200 * n + d by {
      assert 200 * d <= 200 * n;
    }
    MulLessCancel(100, h + 1, 2 * d);
    assert h * (2 * d) < 102401 * (2 * d) by {
      assert 200 * n < 200 * (1024 * d);
    }
    MulLessCancel(h, 102401, 2 * d);
  }

  /** The zero quirk: no logarithm is taken of 0, which is reported in KB. */
  lemma ZeroIsKilobytes()
    ensures HumanReadableSize(0) == "0 KB"
  {
    assert RoundedHundredths(0, 1) == 0;
    assert NatToDecimal(0) == "0";
  }

  /** Sizes below 1 KB print unscaled in B. */
  lemma BytesExamples()
    ensures HumanReadableSize(1) == "1 B"
    ensures HumanReadableSize(1023) == "1023 B"
  {
    assert Pow1024(1) == 1024;
    assert RoundedHundredths(1, 0) == 100;
    assert RoundedHundredths(1023, 0) == 102300;
    assert NatToDecimal(1) == "1";
    assert NatToDecimal(1023) == NatToDecimal(102) + "3";
    assert NatToDecimal(102) == NatToDecimal(10) + "2";
    assert NatToDecimal(10) == "10";
  }

  /** 1024 and 1536 bytes print in KB, with the half kept as one decimal. */
  lemma KilobytesExamples()
    ensures HumanReadableSize(1024) == "1 KB"
    ensures HumanReadableSize(1536) == "1.5 KB"
  {
    assert Pow1024(1) == 1024 && Pow1024(2) == 1048576;
    assert Log1024(1024) == 1 && Log1024(1536) == 1;
    assert RoundedHundredths(1024, 1) == 100;
    assert RoundedHundredths(1536, 1) == 150;
    assert NatToDecimal(1) == "1";
    assert FractionText(50) == ".5";
  }

  /** One byte short of 1 MB rounds up to "1024 KB". */
  lemma RoundingReaches1024()
    ensures HumanReadableSize(1048575) == "1024 KB"
  {
    AlmostOneMegabyte();
    assert HundredthsText(102400) == "1024" by {
      assert 102400 / 100 == 1024 && 102400 % 100 == 0;
      assert NatToDecimal(1024) == NatToDecimal(102) + "4";
      assert NatToDecimal(102) == NatToDecimal(10) + "2";
      assert NatToDecimal(10) == "10";
    }
  }

  /** 1048575 bytes are in the KB range and round to 1024.00 of them. */
  lemma AlmostOneMegabyte()
    ensures UnitIndex(1048575) == 1
    ensures RoundedHundredths(1048575, 1) == 102400
  {
    assert Pow1024(1) == 1024 && Pow1024(2) == 1048576;
    var h := RoundedHundredths(1048575, 1);
    assert h * 2048 <= 209716024 < (h + 1) * 2048;
  }

  /** 1024^3 bytes print as "1 GB". */
  lemma GigabyteExample()
    ensures HumanReadableSize(1073741824) == "1 GB"
  {
    assert Pow1024(1) == 1024 && Pow1024(2) == 1048576;
    assert Pow1024(3) == 1073741824 && Pow1024(4) == 1099511627776;
    assert Log1024(1073741824) == 1 + Log1024(1048576);
    assert Log1024(1048576) == 1 + Log1024(1024);
    assert Log1024(1024) == 1 + Log1024(1);
    assert RoundedHundredths(1073741824, 3) == 100;
    assert NatToDecimal(1) == "1";
  }
}
