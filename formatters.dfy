/** The dashboard's display formatters: tiered prices, K/M/B magnitudes, signed percentages and the
    trend classifiers. */
module Formatters {
  import opened Common
  import opened Text

  /* ---------------------------------------------------------------- prices */

  /** `format_price`: three tiers with inclusive lower bounds. */
  function FormatPrice(price: real): string {
    if price >= 1000.0 then "$" + Grouped(price, 2)
    else if price >= 1.0 then "$" + Fixed(price, 4)
    else "$" + Fixed(price, 8)
  }

  /** The number of decimals of each tier. */
  function PriceDecimals(price: real): nat {
    if price >= 1000.0 then 2 else if price >= 1.0 then 4 else 8
  }

  /** Every tier starts with `$`; the text shows the price rounded to the tier's decimals, within half
      a unit of the last place, and only the top tier carries separators. */
  lemma FormatPriceReadsBack(price: real)
    ensures |FormatPrice(price)| >= 2 && FormatPrice(price)[0] == '$'
    ensures ReadPrice(FormatPrice(price)) == Some(Rounded(price, PriceDecimals(price)))
    ensures Abs(Rounded(price, PriceDecimals(price)) - price) <= 0.5 / Pow10(PriceDecimals(price)) as real
    ensures price < 1000.0 ==> ',' !in FormatPrice(price)
  {
    var d := PriceDecimals(price);
    var body := if price >= 1000.0 then Grouped(price, d) else Fixed(price, d);
    assert FormatPrice(price) == "$" + body;
    assert |body| >= 1 by {
      FixedShape(price, d);
      if price >= 1000.0 {
        GroupedUngroups(price, d);
        RemoveCommasNone("");
      }
    }
    DollarsReadBack(price, d, price >= 1000.0);
    RoundedIsNearest(price, d);
  }

  /** `Fixed` of a non-negative value, once its rounded digits are known. */
  lemma FixedOf(x: real, d: nat, n: nat, ip: string, fp: string)
    requires x >= 0.0 && d >= 1 && RoundHalfEven(x, d) == n
    requires Digits(Quotient(n, Pow10(d))) == ip && ZeroPad(n % Pow10(d), d) == fp
    ensures Fixed(x, d) == ip + "." + fp
    ensures Grouped(x, d) == Group(ip) + "." + fp
  {
    assert Abs(x) == x && Sign(x) == "";
    assert FractionPart(n, d) == "." + fp;
    assert Unsigned(n, d) == ip + "." + fp;
  }

  lemma Digits1234()
    ensures Digits(1234) == "1234"
  {
    assert Digits(1) == "1";
    assert Digits(12) == "12";
    assert Digits(123) == "123";
  }

  lemma Digits1235()
    ensures Digits(1235) == "1235"
  {
    assert Digits(1) == "1";
    assert Digits(12) == "12";
    assert Digits(123) == "123";
  }

  lemma Digits50M()
    ensures Digits(50000000) == "50000000"
  {
    assert Digits(5) == "5";
    assert Digits(50) == "50";
    assert Digits(500) == "500";
    assert Digits(5000) == "5000";
    assert Digits(50000) == "50000";
    assert Digits(500000) == "500000";
    assert Digits(5000000) == "5000000";
  }

  lemma PriceGroupedExample()
    ensures FormatPrice(1234.5) == "$1,234.50"
  {
    TopTierExample(1234.5);
  }

  lemma TopTierExample(p: real)
    requires p == 1234.5
    ensures FormatPrice(p) == "$1,234.50"
  {
    GroupedExample(p);
    TopTierText();
    DollarsOf(FormatPrice(p), Grouped(p, 2), "1,234.50", "$1,234.50");
  }

  lemma TopTierText()
    ensures "$1,234.50" == "$" + "1,234.50"
  {
  }

  /** A price text `$` + `g` is the expected text once `g` is. */
  lemma DollarsOf(t: string, g: string, shown: string, expected: string)
    requires t == "$" + g && g == shown && expected == "$" + shown
    ensures t == expected
  {
  }

  lemma GroupedExample(p: real)
    requires p == 1234.5
    ensures Grouped(p, 2) == "1,234.50"
  {
    assert RoundHalfEven(p, 2) == 123450 by {
      Pow10Values();
      assert p * (Pow10(2) as real) == 123450.0;
      assert RoundScaled(123450.0) == 123450;
    }
    assert Digits(Quotient(123450, Pow10(2))) == "1234" by {
      Pow10Values();
      assert Quotient(123450, Pow10(2)) == 1234;
      Digits1234();
    }
    assert ZeroPad(123450 % Pow10(2), 2) == "50" by {
      Pow10Values();
      assert 123450 % Pow10(2) == 50;
      assert Digits(50) == "50" by { assert Digits(5) == "5"; }
    }
    FixedOf(p, 2, 123450, "1234", "50");
    GroupedText();
  }

  lemma GroupedText()
    ensures Group("1234") + "." + "50" == "1,234.50"
  {
    assert "1234"[..1] == "1" && "1234"[1..] == "234";
  }

  lemma PriceSmallExample()
    ensures FormatPrice(0.5) == "$0.50000000"
  {
    BottomTierExample(0.5);
  }

  lemma BottomTierExample(p: real)
    requires p == 0.5
    ensures FormatPrice(p) == "$0.50000000"
  {
    EightDecimalsExample(p);
    BottomTierText();
    DollarsOf(FormatPrice(p), Fixed(p, 8), "0.50000000", "$0.50000000");
  }

  lemma BottomTierText()
    ensures "$0.50000000" == "$" + "0.50000000"
  {
  }

  lemma EightDecimalsExample(p: real)
    requires p == 0.5
    ensures Fixed(p, 8) == "0.50000000"
  {
    HalfRounded(p);
    HalfWhole();
    HalfFraction();
    FixedOf(p, 8, 50000000, "0", "50000000");
    HalfText();
  }

  lemma HalfRounded(p: real)
    requires p == 0.5
    ensures RoundHalfEven(p, 8) == 50000000
  {
    Pow10Values();
    assert p * (Pow10(8) as real) == 50000000.0;
    assert RoundScaled(50000000.0) == 50000000;
  }

  lemma HalfWhole()
    ensures Digits(Quotient(50000000, Pow10(8))) == "0"
  {
    Pow10Values();
    assert Quotient(50000000, Pow10(8)) == 0;
  }

  lemma HalfFraction()
    ensures ZeroPad(50000000 % Pow10(8), 8) == "50000000"
  {
    Pow10Values();
    assert 50000000 % Pow10(8) == 50000000;
    Digits50M();
  }

  lemma HalfText()
    ensures "0" + "." + "50000000" == "0.50000000"
  {
  }

  /** `42.1234567` shows as `$42.1235`: the fourth decimal is rounded, not cut off. */
  lemma PriceRoundsExample()
    ensures FormatPrice(42.1234567) == "$42.1235"
  {
    MiddleTierExample(42.1234567);
  }

  lemma MiddleTierExample(p: real)
    requires p == 42.1234567
    ensures FormatPrice(p) == "$42.1235"
  {
    FourDecimalsExample(p);
    MiddleTierText();
    DollarsOf(FormatPrice(p), Fixed(p, 4), "42.1235", "$42.1235");
  }

  lemma MiddleTierText()
    ensures "$42.1235" == "$" + "42.1235"
  {
  }

  lemma FourDecimalsExample(p: real)
    requires p == 42.1234567
    ensures Fixed(p, 4) == "42.1235"
  {
    assert RoundHalfEven(p, 4) == 421235 by {
      Pow10Values();
      assert p * (Pow10(4) as real) == 421234.567;
      assert RoundScaled(421234.567) == 421235;
    }
    assert Digits(Quotient(421235, Pow10(4))) == "42" by {
      Pow10Values();
      assert Quotient(421235, Pow10(4)) == 42;
      assert Digits(42) == "42" by { assert Digits(4) == "4"; }
    }
    assert ZeroPad(421235 % Pow10(4), 4) == "1235" by {
      Pow10Values();
      assert 421235 % Pow10(4) == 1235;
      Digits1235();
    }
    FixedOf(p, 4, 421235, "42", "1235");
    RoundedText();
  }

  lemma RoundedText()
    ensures "42" + "." + "1235" == "42.1235"
  {
  }

  /* ---------------------------------------------------------------- large numbers */

  /** `format_large_number`: B, M and K tiers on the scaled value, `suffix` at the very end. */
  function FormatLargeNumber(num: real, suffix: string): string {
    if num >= 1000000000.0 then "$" + Fixed(num / 1000000000.0, 2) + "B" + suffix
    else if num >= 1000000.0 then "$" + Fixed(num / 1000000.0, 2) + "M" + suffix
    else if num >= 1000.0 then "$" + Fixed(num / 1000.0, 2) + "K" + suffix
    else "$" + Fixed(num, 2) + suffix
  }

  /** The tier of a number: its divisor and its letter. */
  function Divisor(num: real): (div: real)
    ensures div >= 1.0
  {
    if num >= 1000000000.0 then 1000000000.0
    else if num >= 1000000.0 then 1000000.0
    else if num >= 1000.0 then 1000.0
    else 1.0
  }

  function Letter(num: real): string {
    if num >= 1000000000.0 then "B" else if num >= 1000000.0 then "M" else if num >= 1000.0 then "K" else ""
  }

  /** `v` scaled by the tier that the letter `c` names. */
  function Multiply(v: real, c: char): real {
    if c == 'B' then v * 1000000000.0
    else if c == 'M' then v * 1000000.0
    else if c == 'K' then v * 1000.0
    else v
  }

  /** The amount a magnitude text stands for, given the suffix that was passed in. */
  function ReadLargeNumber(t: string, suffix: string): Option<real> {
    if |t| >= 2 + |suffix| && t[0] == '$' && t[|t| - |suffix|..] == suffix then
      ReadMagnitude(t[1..|t| - |suffix|])
    else None
  }

  /** A number, optionally followed by one of the letters `B`, `M`, `K`. */
  function ReadMagnitude(core: string): Option<real>
    requires |core| >= 1
  {
    var c := core[|core| - 1];
    if c in "BMK" then
      match ParseDecimal(core[..|core| - 1])
      case None => None
      case Some(v) => Some(Multiply(v, c))
    else ParseDecimal(core)
  }

  /** The number scaled into its tier. */
  function InTier(num: real): real {
    if num >= 1000000000.0 then num / 1000000000.0
    else if num >= 1000000.0 then num / 1000000.0
    else if num >= 1000.0 then num / 1000.0
    else num
  }

  /** The amount `FormatLargeNumber` displays: the number in its tier rounded to 2 decimals, scaled back. */
  function Shown(num: real): real {
    var v := Rounded(InTier(num), 2);
    if Letter(num) == "" then v else Multiply(v, Letter(num)[0])
  }

  lemma LargeNumberTiers(num: real, suffix: string)
    ensures FormatLargeNumber(num, suffix) == "$" + Fixed(InTier(num), 2) + Letter(num) + suffix
  {
  }

  /** The text starts with `$` and ends with `suffix`. The character just before `suffix` names the
      tier: `B` from a billion, `M` from a million, `K` from a thousand, and a digit below that. */
  lemma LargeNumberLetter(num: real, suffix: string)
    ensures var t := FormatLargeNumber(num, suffix);
            |t| >= 2 + |suffix| && t[0] == '$' && t[|t| - |suffix|..] == suffix
    ensures var t := FormatLargeNumber(num, suffix);
            var c := t[|t| - |suffix| - 1];
            && (c == 'B' <==> num >= 1000000000.0)
            && (c == 'M' <==> 1000000.0 <= num < 1000000000.0)
            && (c == 'K' <==> 1000.0 <= num < 1000000.0)
            && (IsDigit(c) <==> num < 1000.0)
  {
    var t := FormatLargeNumber(num, suffix);
    var f := Fixed(InTier(num), 2);
    LargeNumberTiers(num, suffix);
    FixedShape(InTier(num), 2);
    LetterPieces(t, f, Letter(num), suffix);
  }

  lemma LetterPieces(t: string, f: string, l: string, suffix: string)
    requires |f| >= 1 && |l| <= 1 && t == "$" + f + l + suffix
    ensures |t| >= 2 + |suffix| && t[0] == '$' && t[|t| - |suffix|..] == suffix
    ensures t[|t| - |suffix| - 1] == (if l == "" then f[|f| - 1] else l[0])
  {
    assert t[|t| - |suffix|..] == suffix;
  }

  /** Reading the text back gives the number in its tier rounded to 2 decimals, scaled back: within
      half a unit of the tier's second decimal. */
  lemma LargeNumberReadsBack(num: real, suffix: string)
    ensures ReadLargeNumber(FormatLargeNumber(num, suffix), suffix) == Some(Shown(num))
    ensures Abs(Shown(num) - num) <= 0.005 * Divisor(num)
  {
    LargeNumberTiers(num, suffix);
    TierReadsBack(FormatLargeNumber(num, suffix), suffix, InTier(num), Letter(num));
    ShownIsNear(num, Rounded(InTier(num), 2));
  }

  lemma ShownIsNear(num: real, v: real)
    requires v == Rounded(InTier(num), 2)
    ensures Abs(Shown(num) - num) <= 0.005 * Divisor(num)
  {
    Pow10Values();
    RoundedIsNearest(InTier(num), 2);
    assert Abs(v - InTier(num)) <= 0.005;
  }

  /** One tier's text `$`, number, letter, suffix reads back as the displayed number in that tier. */
  lemma TierReadsBack(t: string, suffix: string, y: real, l: string)
    requires l in {"B", "M", "K", ""} && t == "$" + Fixed(y, 2) + l + suffix
    ensures ReadLargeNumber(t, suffix) == Some(if l == "" then Rounded(y, 2) else Multiply(Rounded(y, 2), l[0]))
  {
    var f := Fixed(y, 2);
    FixedReadsBack(y, 2);
    FixedShape(y, 2);
    TierPieces(t, f, l, suffix);
    MagnitudeText(f, l, Rounded(y, 2));
  }

  lemma TierPieces(t: string, f: string, l: string, suffix: string)
    requires |f| >= 1 && t == "$" + f + l + suffix
    ensures ReadLargeNumber(t, suffix) == ReadMagnitude(f + l)
  {
    assert t == "$" + (f + l) + suffix;
    assert t[|t| - |suffix|..] == suffix;
    assert t[1..|t| - |suffix|] == f + l;
  }

  lemma MagnitudeText(f: string, l: string, v: real)
    requires |f| >= 1 && IsDigit(f[|f| - 1]) && ParseDecimal(f) == Some(v) && l in {"B", "M", "K", ""}
    ensures ReadMagnitude(f + l) == Some(if l == "" then v else Multiply(v, l[0]))
  {
    var core := f + l;
    if l == "" {
      assert core == f;
      assert core[|core| - 1] !in "BMK";
    } else {
      assert core[|core| - 1] == l[0];
      assert core[..|core| - 1] == f;
    }
  }

  /* ---------------------------------------------------------------- percentages */

  /** `format_percentage`: 2 decimals and `%`; `+` only when asked for and the change is positive. */
  function FormatPercentage(pct: real, includeSign: bool): string {
    if includeSign then
      if pct > 0.0 then "+" + Fixed(pct, 2) + "%" else Fixed(pct, 2) + "%"
    else Fixed(pct, 2) + "%"
  }

  lemma FormatPercentageMeaning(pct: real, includeSign: bool)
    ensures var t := FormatPercentage(pct, includeSign);
            && t[|t| - 1] == '%'
            && (t[0] == '+' <==> includeSign && pct > 0.0)
            && (t[0] == '-' <==> pct < 0.0)
            && (!includeSign ==> '+' !in t)
            && ReadPercent(t) == Some(Rounded(pct, 2))
  {
    var plus := includeSign && pct > 0.0;
    assert FormatPercentage(pct, includeSign) == (if plus then "+" else "") + Fixed(pct, 2) + "%";
    PercentReadsBack(pct, plus);
  }

  lemma PercentageExamples()
    ensures FormatPercentage(3.2, true) == "+3.20%"
    ensures FormatPercentage(-3.2, true) == "-3.20%"
  {
    Pow10Values();
    assert RoundHalfEven(3.2, 2) == 320 by {
      assert 3.2 * (Pow10(2) as real) == 320.0;
      assert RoundScaled(320.0) == 320;
    }
    assert Abs(-3.2) == 3.2;
    assert ZeroPad(20, 2) == "20" by { assert Digits(20) == "20" by { assert Digits(2) == "2"; } }
    assert Fixed(3.2, 2) == "3.20" by {
      assert Quotient(320, Pow10(2)) == 3;
      assert FractionPart(320, 2) == ".20";
    }
    assert Fixed(-3.2, 2) == "-3.20" by {
      assert Quotient(320, Pow10(2)) == 3;
      assert FractionPart(320, 2) == ".20";
    }
  }

  /* ---------------------------------------------------------------- trend classifiers */

  /** The five trend symbols, kept abstract: the source spells them as mis-encoded emoji. */
  datatype Trend = StrongUp | Up | StrongDown | Down | Flat

  /** `get_trend_emoji`. */
  function TrendEmoji(changePct: real): Trend {
    if changePct > 5.0 then StrongUp
    else if changePct > 0.0 then Up
    else if changePct < -5.0 then StrongDown
    else if changePct < 0.0 then Down
    else Flat
  }

  /** `get_trend_color`. */
  function TrendColor(changePct: real): string {
    if changePct > 0.0 then "green" else if changePct < 0.0 then "red" else "gray"
  }

  /** Each trend covers one interval: (5, ∞), (0, 5], (-∞, -5), [-5, 0) and {0}. */
  lemma TrendIntervals(p: real)
    ensures TrendEmoji(p) == StrongUp <==> p > 5.0
    ensures TrendEmoji(p) == Up <==> 0.0 < p <= 5.0
    ensures TrendEmoji(p) == StrongDown <==> p < -5.0
    ensures TrendEmoji(p) == Down <==> -5.0 <= p < 0.0
    ensures TrendEmoji(p) == Flat <==> p == 0.0
  {
  }

  lemma TrendBoundaries()
    ensures TrendEmoji(5.0) == Up && TrendEmoji(-5.0) == Down && TrendEmoji(0.0) == Flat
  {
  }

  lemma ColorCases(p: real)
    ensures TrendColor(p) == "green" <==> p > 0.0
    ensures TrendColor(p) == "red" <==> p < 0.0
    ensures TrendColor(p) == "gray" <==> p == 0.0
  {
  }

  /** The classifiers agree: an upward symbol exactly when green, a downward one exactly when red. */
  lemma ClassifiersAgree(p: real)
    ensures TrendEmoji(p) in {StrongUp, Up} <==> TrendColor(p) == "green"
    ensures TrendEmoji(p) in {StrongDown, Down} <==> TrendColor(p) == "red"
    ensures TrendEmoji(p) == Flat <==> TrendColor(p) == "gray"
  {
  }
}
