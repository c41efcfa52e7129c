/** String building blocks of Python's formatting that the pipeline relies on: decimal digits,
    zero padding, fixed-point rendering (`format(x, '.Nf')`), the `,` thousands separator,
    ASCII upper-casing, `str.replace` with a one-character pattern and `str.split('\n')`. */
module Text {
  import opened Common

  function Pow10(d: nat): (p: nat)
    ensures p >= 1
  {
    if d == 0 then 1 else 10 * Pow10(d - 1)
  }

  predicate IsDigit(c: char) {
    '0' <= c <= '9'
  }

  predicate AllDigits(s: string) {
    forall i :: 0 <= i < |s| ==> IsDigit(s[i])
  }

  /** The characters a rendered number is made of. */
  predicate NumericText(s: string) {
    forall i :: 0 <= i < |s| ==> IsDigit(s[i]) || s[i] in "-.,"
  }

  function DigitChar(d: nat): (c: char)
    requires d < 10
    ensures IsDigit(c) && c as int - '0' as int == d
  {
    ('0' as int + d) as char
  }

  /** `str(n)` for a non-negative integer: decimal digits without leading zeros. */
  function Digits(n: nat): (s: string)
    ensures |s| >= 1 && AllDigits(s)
  {
    if n < 10 then [DigitChar(n)] else Digits(n / 10) + [DigitChar(n % 10)]
  }

  /** `int(s)` for a string of decimal digits (the empty string reads as 0). */
  function ParseNat(s: string): nat
    requires AllDigits(s)
  {
    if s == [] then 0 else 10 * ParseNat(s[..|s| - 1]) + (s[|s| - 1] as int - '0' as int)
  }

  lemma {:induction false} ParseDigits(n: nat)
    ensures ParseNat(Digits(n)) == n
  {
    if n >= 10 {
      var s := Digits(n);
      assert s[..|s| - 1] == Digits(n / 10);
      ParseDigits(n / 10);
    }
  }

  /** A number below 10^d has at most d digits. */
  lemma {:induction false} DigitsFit(n: nat, d: nat)
    requires 1 <= d && n < Pow10(d)
    ensures |Digits(n)| <= d
  {
    if n >= 10 {
      assert d >= 2;
      assert n / 10 < Pow10(d - 1);
      DigitsFit(n / 10, d - 1);
    }
  }

  function Zeros(k: nat): (z: string)
    ensures |z| == k && forall i :: 0 <= i < k ==> z[i] == '0'
  {
    seq(k, _ => '0')
  }

  /** `n` rendered with at least `width` digits, padded on the left with zeros (`%0{width}d`). */
  function ZeroPad(n: nat, width: nat): string {
    var s := Digits(n);
    (if |s| < width then Zeros(width - |s|) else "") + s
  }

  lemma {:induction false} ParseLeadingZeros(k: nat, t: string)
    requires AllDigits(t)
    ensures AllDigits(Zeros(k) + t) && ParseNat(Zeros(k) + t) == ParseNat(t)
  {
    var s := Zeros(k) + t;
    assert AllDigits(s) by {
      forall i | 0 <= i < |s| ensures IsDigit(s[i]) {
        if i < k { assert s[i] == '0'; } else { assert s[i] == t[i - k]; }
      }
    }
    if t == [] {
      assert s == Zeros(k);
      ZerosParse(k);
    } else {
      assert s[..|s| - 1] == Zeros(k) + t[..|t| - 1];
      ParseLeadingZeros(k, t[..|t| - 1]);
    }
  }

  lemma {:induction false} ZerosParse(k: nat)
    ensures ParseNat(Zeros(k)) == 0
  {
    if k > 0 {
      assert Zeros(k)[..k - 1] == Zeros(k - 1);
      ZerosParse(k - 1);
    }
  }

  /** Zero padding keeps the value, and a number below 10^width fills exactly `width` digits. */
  lemma ZeroPadCorrect(n: nat, width: nat)
    ensures AllDigits(ZeroPad(n, width)) && ParseNat(ZeroPad(n, width)) == n
    ensures |ZeroPad(n, width)| >= width
    ensures 1 <= width && n < Pow10(width) ==> |ZeroPad(n, width)| == width
  {
    var s := Digits(n);
    ParseDigits(n);
    if |s| < width {
      ParseLeadingZeros(width - |s|, s);
    } else {
      assert ZeroPad(n, width) == s;
    }
    if 1 <= width && n < Pow10(width) {
      DigitsFit(n, width);
    }
  }

  lemma Pow10Values()
    ensures Pow10(2) == 100 && Pow10(4) == 10000 && Pow10(6) == 1000000 && Pow10(8) == 100000000
  {
    assert Pow10(2) == 100;
    assert Pow10(4) == 100 * Pow10(2) by { assert Pow10(4) == 10 * (10 * Pow10(2)); }
    assert Pow10(6) == 100 * Pow10(4) by { assert Pow10(6) == 10 * (10 * Pow10(4)); }
    assert Pow10(8) == 100 * Pow10(6) by { assert Pow10(8) == 10 * (10 * Pow10(6)); }
  }

  /** `x * 10^d` rounded to the nearest integer, ties to the even neighbour: the digits that
      Python's correctly rounded `format(x, '.{d}f')` shows for a non-negative `x`.
      Read as a multiple of 10^-d it is at most half a unit of the last place from `x`. */
  function RoundHalfEven(x: real, d: nat): (n: nat)
    requires x >= 0.0
    ensures -(0.5 / Pow10(d) as real) <= n as real / Pow10(d) as real - x <= 0.5 / Pow10(d) as real
    ensures Abs(n as real - x * Pow10(d) as real) == 0.5 ==> n % 2 == 0
  {
    var p := Pow10(d) as real;
    var n := RoundScaled(x * p);
    ScaledError(n as real, x, p);
    n
  }

  /** The integer nearest to `y >= 0`, ties to the even one. */
  function RoundScaled(y: real): (n: nat)
    requires y >= 0.0
    ensures -0.5 <= n as real - y <= 0.5
    ensures Abs(n as real - y) == 0.5 ==> n % 2 == 0
  {
    var f := y.Floor;
    var frac := y - f as real;
    if frac > 0.5 || (frac == 0.5 && f % 2 == 1) then f + 1 else f
  }

  /** `n // p` for a positive divisor. */
  function Quotient(n: nat, p: nat): nat
    requires p >= 1
  {
    n / p
  }

  function Sign(x: real): string {
    if x < 0.0 then "-" else ""
  }

  /** The fraction part of a rendering with `d` decimals: empty for `d == 0`. */
  function FractionPart(n: nat, d: nat): string {
    if d == 0 then "" else "." + ZeroPad(n % Pow10(d), d)
  }

  /** `format(x, '.{d}f')`: the sign of a negative `x` is kept even when it rounds to zero. */
  function Fixed(x: real, d: nat): string {
    Sign(x) + Unsigned(RoundHalfEven(Abs(x), d), d)
  }

  /** The digits of `n / 10^d` written with `d` decimals, without a sign. */
  function Unsigned(n: nat, d: nat): string {
    Digits(Quotient(n, Pow10(d))) + FractionPart(n, d)
  }

  /** The digits `s` with a `,` inserted before every group of three counted from the right. */
  function Group(s: string): string
    decreases |s|
  {
    if |s| <= 3 then s else Group(s[..|s| - 3]) + "," + s[|s| - 3..]
  }

  /** `format(x, ',.{d}f')`: as `Fixed`, with the integer part split by `,` into thousands. */
  function Grouped(x: real, d: nat): string {
    var n := RoundHalfEven(Abs(x), d);
    Sign(x) + Group(Digits(Quotient(n, Pow10(d)))) + FractionPart(n, d)
  }

  /** The value that `Fixed(x, d)` and `Grouped(x, d)` display. */
  function Rounded(x: real, d: nat): real {
    var m := RoundHalfEven(Abs(x), d) as real / Pow10(d) as real;
    if x < 0.0 then -m else m
  }

  /** The displayed value is the nearest multiple of 10^-d: at most half a unit of the last place away. */
  lemma RoundedIsNearest(x: real, d: nat)
    ensures Abs(Rounded(x, d) - x) <= 0.5 / Pow10(d) as real
  {
    var m := RoundHalfEven(Abs(x), d) as real / Pow10(d) as real;
    SignedError(x, m, 0.5 / Pow10(d) as real);
  }

  lemma SignedError(x: real, m: real, h: real)
    requires -h <= m - Abs(x) <= h
    ensures Abs((if x < 0.0 then -m else m) - x) <= h
  {
  }

  lemma ScaledError(n: real, a: real, p: real)
    requires p >= 1.0 && -0.5 <= n - a * p <= 0.5
    ensures -0.5 / p <= n / p - a <= 0.5 / p
  {
    var e := n - a * p;
    assert n / p - a == e / p by {
      assert n == e + a * p;
      assert (e + a * p) / p == e / p + a;
    }
    assert e / p <= 0.5 / p by {
      assert 0.5 / p - e / p == (0.5 - e) / p;
    }
    assert -0.5 / p <= e / p by {
      assert e / p - (-0.5) / p == (e + 0.5) / p;
    }
  }

  function RemoveCommas(s: string): (r: string)
    ensures ',' !in r
  {
    if s == [] then "" else (if s[0] == ',' then "" else [s[0]]) + RemoveCommas(s[1..])
  }

  lemma {:induction false} RemoveCommasAppend(a: string, b: string)
    ensures RemoveCommas(a + b) == RemoveCommas(a) + RemoveCommas(b)
  {
    if a != [] {
      assert (a + b)[0] == a[0];
      assert (a + b)[1..] == a[1..] + b;
      RemoveCommasAppend(a[1..], b);
    } else {
      assert a + b == b;
    }
  }

  lemma {:induction false} RemoveCommasNone(s: string)
    requires ',' !in s
    ensures RemoveCommas(s) == s
  {
    if s != [] {
      RemoveCommasNone(s[1..]);
    }
  }

  /** Deleting the separators from a grouped integer gives back its digits. */
  lemma {:induction false} GroupUngroups(s: string)
    requires ',' !in s
    ensures RemoveCommas(Group(s)) == s
  {
    if |s| <= 3 {
      RemoveCommasNone(s);
    } else {
      var head, tail := s[..|s| - 3], s[|s| - 3..];
      assert s == head + tail;
      assert ',' !in head && ',' !in tail by {
        forall i | 0 <= i < |head| ensures head[i] != ',' { assert head[i] == s[i]; }
        forall i | 0 <= i < |tail| ensures tail[i] != ',' { assert tail[i] == s[|s| - 3 + i]; }
      }
      GroupUngroups(head);
      UngroupStep(Group(head), head, tail);
    }
  }

  lemma UngroupStep(g: string, head: string, tail: string)
    requires RemoveCommas(g) == head && ',' !in tail
    ensures RemoveCommas(g + "," + tail) == head + tail
  {
    calc {
      RemoveCommas(g + "," + tail);
      { RemoveCommasAppend(g + ",", tail); }
      RemoveCommas(g + ",") + RemoveCommas(tail);
      { RemoveCommasAppend(g, ","); }
      RemoveCommas(g) + RemoveCommas(",") + RemoveCommas(tail);
      { CommaRemoved(); RemoveCommasNone(tail); }
      head + "" + tail;
      { assert head + "" == head; }
      head + tail;
    }
  }

  lemma CommaRemoved()
    ensures RemoveCommas(",") == ""
  {
    assert ","[1..] == "";
  }

  /** The separators sit exactly where the distance to the end is a multiple of four:
      groups of three digits from the right, the leftmost group holding one to three. */
  lemma {:induction false} GroupPositions(s: string)
    requires |s| >= 1 && AllDigits(s)
    ensures |Group(s)| == |s| + (|s| - 1) / 3
    ensures forall i :: 0 <= i < |Group(s)| ==> (Group(s)[i] == ',' <==> (|Group(s)| - i) % 4 == 0)
    ensures NumericText(Group(s))
  {
    var g := Group(s);
    if |s| <= 3 {
      forall i | 0 <= i < |g| ensures g[i] != ',' && (|g| - i) % 4 != 0 {
        assert IsDigit(s[i]);
      }
    } else {
      var head, tail := s[..|s| - 3], s[|s| - 3..];
      assert AllDigits(head) by {
        forall i | 0 <= i < |head| ensures IsDigit(head[i]) { assert head[i] == s[i]; }
      }
      assert AllDigits(tail) by {
        forall i | 0 <= i < |tail| ensures IsDigit(tail[i]) { assert tail[i] == s[|s| - 3 + i]; }
      }
      GroupPositions(head);
      assert g == Group(head) + "," + tail;
      CommaStep(Group(head), tail);
      NumericStep(Group(head), tail);
    }
  }

  /** Prepending a correctly grouped text and a separator to three digits keeps every separator at
      a distance from the end that is a multiple of four. */
  lemma CommaStep(h: string, tail: string)
    requires |tail| == 3 && AllDigits(tail)
    requires forall i :: 0 <= i < |h| ==> (h[i] == ',' <==> (|h| - i) % 4 == 0)
    ensures var g := h + "," + tail;
            forall i :: 0 <= i < |g| ==> (g[i] == ',' <==> (|g| - i) % 4 == 0)
  {
    var g := h + "," + tail;
    forall i | 0 <= i < |g| ensures g[i] == ',' <==> (|g| - i) % 4 == 0 {
      if i < |h| {
        assert g[i] == h[i];
        assert |g| - i == (|h| - i) + 4;
      } else if i > |h| {
        assert g[i] == tail[i - |h| - 1];
        assert IsDigit(tail[i - |h| - 1]);
      }
    }
  }

  /** Joining numeric texts with a separator keeps the text numeric. */
  lemma NumericStep(h: string, tail: string)
    requires NumericText(h) && AllDigits(tail)
    ensures NumericText(h + "," + tail)
  {
    var g := h + "," + tail;
    forall i | 0 <= i < |g| ensures IsDigit(g[i]) || g[i] in "-.," {
      if i < |h| {
        assert g[i] == h[i];
      } else if i > |h| {
        assert g[i] == tail[i - |h| - 1];
      }
    }
  }

  /** `Grouped` differs from `Fixed` by the separators alone. */
  lemma GroupedUngroups(x: real, d: nat)
    ensures RemoveCommas(Grouped(x, d)) == Fixed(x, d)
  {
    var n := RoundHalfEven(Abs(x), d);
    var ds := Digits(Quotient(n, Pow10(d)));
    var fr := FractionPart(n, d);
    assert Grouped(x, d) == Sign(x) + Group(ds) + fr;
    assert Fixed(x, d) == Sign(x) + ds + fr;
    FractionChars(n, d);
    UngroupPieces(Sign(x), ds, fr);
  }

  /** The fraction part is a `.` and digits, or empty. */
  lemma FractionChars(n: nat, d: nat)
    ensures forall i :: 0 <= i < |FractionPart(n, d)| ==> IsDigit(FractionPart(n, d)[i]) || FractionPart(n, d)[i] == '.'
  {
    if d > 0 {
      var fr := FractionPart(n, d);
      var z := ZeroPad(n % Pow10(d), d);
      ZeroPadCorrect(n % Pow10(d), d);
      forall i | 0 <= i < |fr| ensures IsDigit(fr[i]) || fr[i] == '.' {
        if i > 0 { assert fr[i] == z[i - 1]; }
      }
    }
  }

  lemma UngroupPieces(sign: string, ds: string, fr: string)
    requires ',' !in sign && AllDigits(ds) && ',' !in fr
    ensures RemoveCommas(sign + Group(ds) + fr) == sign + ds + fr
  {
    assert ',' !in ds by {
      forall i | 0 <= i < |ds| ensures ds[i] != ',' { assert IsDigit(ds[i]); }
    }
    calc {
      RemoveCommas(sign + Group(ds) + fr);
      { RemoveCommasAppend(sign + Group(ds), fr); }
      RemoveCommas(sign + Group(ds)) + RemoveCommas(fr);
      { RemoveCommasAppend(sign, Group(ds)); RemoveCommasNone(sign); RemoveCommasNone(fr); }
      sign + RemoveCommas(Group(ds)) + fr;
      { GroupUngroups(ds); }
      sign + ds + fr;
    }
  }

  /** The position of the first `c` in `s`. */
  function IndexOf(s: string, c: char): (r: Option<nat>)
    ensures r.None? <==> c !in s
    ensures r.Some? ==> r.value < |s| && s[r.value] == c && c !in s[..r.value]
  {
    if s == [] then None
    else if s[0] == c then Some(0)
    else match IndexOf(s[1..], c)
      case None => None
      case Some(k) => assert s[..k + 1] == [s[0]] + s[1..][..k]; Some(k + 1)
  }

  lemma IndexOfAfter(a: string, c: char, b: string)
    requires c !in a
    ensures IndexOf(a + [c] + b, c) == Some(|a|)
  {
    var s := a + [c] + b;
    assert s[|a|] == c;
    assert s[..|a|] == a;
  }

  /** `float(s)` for the texts `Fixed` produces: an optional `-`, digits, and optionally `.` and digits. */
  function ParseDecimal(s: string): Option<real> {
    if |s| > 0 && s[0] == '-' then
      match ParseUnsigned(s[1..])
      case None => None
      case Some(v) => Some(-v)
    else ParseUnsigned(s)
  }

  function ParseUnsigned(s: string): Option<real> {
    match IndexOf(s, '.')
    case None =>
      if |s| >= 1 && AllDigits(s) then Some(ParseNat(s) as real) else None
    case Some(k) => ParseParts(s[..k], s[k + 1..])
  }

  /** The value of `ip.fp`, when both parts are non-empty digit strings. */
  function ParseParts(ip: string, fp: string): Option<real> {
    if |ip| >= 1 && |fp| >= 1 && AllDigits(ip) && AllDigits(fp)
    then Some(ParseNat(ip) as real + ParseNat(fp) as real / Pow10(|fp|) as real)
    else None
  }

  lemma NoDotInDigits(s: string)
    requires AllDigits(s)
    ensures '.' !in s && '-' !in s && ',' !in s && '\n' !in s
  {
    forall i | 0 <= i < |s| ensures s[i] != '.' && s[i] != '-' && s[i] != ',' && s[i] != '\n' {
      assert IsDigit(s[i]);
    }
  }

  /** Reading back a rendering gives exactly the value it claims to show. */
  lemma FixedReadsBack(x: real, d: nat)
    ensures ParseDecimal(Fixed(x, d)) == Some(Rounded(x, d))
  {
    var n := RoundHalfEven(Abs(x), d);
    var u := Unsigned(n, d);
    UnsignedReadsBack(n, d);
    var m := n as real / Pow10(d) as real;
    assert Rounded(x, d) == if x < 0.0 then -m else m;
    SignedReadsBack(Fixed(x, d), u, x, m);
  }

  lemma SignedReadsBack(s: string, u: string, x: real, m: real)
    requires |u| >= 1 && IsDigit(u[0]) && ParseUnsigned(u) == Some(m) && s == Sign(x) + u
    ensures ParseDecimal(s) == Some(if x < 0.0 then -m else m)
  {
    if x < 0.0 {
      assert s[1..] == u;
    } else {
      assert s == u;
    }
  }

  lemma UnsignedReadsBack(n: nat, d: nat)
    ensures |Unsigned(n, d)| >= 1 && IsDigit(Unsigned(n, d)[0])
    ensures ParseUnsigned(Unsigned(n, d)) == Some(n as real / Pow10(d) as real)
  {
    var ds := Digits(Quotient(n, Pow10(d)));
    assert Unsigned(n, d)[0] == ds[0];
    if d == 0 {
      WholeReadsBack(n, d);
    } else {
      FractionReadsBack(n, d);
    }
  }

  lemma WholeReadsBack(n: nat, d: nat)
    requires d == 0
    ensures ParseUnsigned(Unsigned(n, d)) == Some(n as real / Pow10(d) as real)
  {
    var p := Pow10(d);
    var ds := Digits(Quotient(n, p));
    ParseDigits(Quotient(n, p));
    assert Unsigned(n, d) == ds;
    ParseWhole(ds);
    QuotientByOne(n, p);
  }

  lemma FractionReadsBack(n: nat, d: nat)
    requires d > 0
    ensures ParseUnsigned(Unsigned(n, d)) == Some(n as real / Pow10(d) as real)
  {
    var p := Pow10(d);
    var q := Quotient(n, p);
    var ds := Digits(q);
    ParseDigits(q);
    var r := n % p;
    var z := ZeroPad(r, d);
    ZeroPadCorrect(r, d);
    var u := Unsigned(n, d);
    assert u == ds + "." + z;
    ParseWithFraction(ds, z);
    QuotientSplit(n, p);
    CombineFraction(u, ds, z, q, r, n, p);
  }

  lemma CombineFraction(u: string, ip: string, fp: string, q: nat, r: nat, n: nat, p: nat)
    requires p >= 1 && AllDigits(ip) && AllDigits(fp) && ParseNat(ip) == q && ParseNat(fp) == r && Pow10(|fp|) == p && q * p + r == n
    requires ParseUnsigned(u) == Some(ParseNat(ip) as real + ParseNat(fp) as real / Pow10(|fp|) as real)
    ensures ParseUnsigned(u) == Some(n as real / p as real)
  {
    FractionSum(q, r, p);
  }

  lemma QuotientByOne(n: nat, p: nat)
    requires p == 1
    ensures Quotient(n, p) as real == n as real / p as real
  {
  }

  lemma QuotientSplit(n: nat, p: nat)
    requires p >= 1
    ensures Quotient(n, p) * p + n % p == n
  {
  }

  lemma ParseWhole(ds: string)
    requires |ds| >= 1 && AllDigits(ds)
    ensures ParseUnsigned(ds) == Some(ParseNat(ds) as real)
  {
    NoDotInDigits(ds);
  }

  lemma PartsValue(ip: string, fp: string)
    requires |ip| >= 1 && |fp| >= 1 && AllDigits(ip) && AllDigits(fp)
    ensures ParseParts(ip, fp) == Some(ParseNat(ip) as real + ParseNat(fp) as real / Pow10(|fp|) as real)
  {
  }

  lemma ParseWithFraction(ip: string, fp: string)
    requires |ip| >= 1 && |fp| >= 1 && AllDigits(ip) && AllDigits(fp)
    ensures ParseUnsigned(ip + "." + fp) == Some(ParseNat(ip) as real + ParseNat(fp) as real / Pow10(|fp|) as real)
  {
    var u := ip + "." + fp;
    NoDotInDigits(ip);
    IndexOfAfter(ip, '.', fp);
    assert u == ip + ['.'] + fp;
    assert u[..|ip|] == ip;
    assert u[|ip| + 1..] == fp;
    assert ParseUnsigned(u) == ParseParts(ip, fp);
    PartsValue(ip, fp);
  }

  lemma FractionSum(q: nat, r: nat, p: nat)
    requires p >= 1
    ensures q as real + r as real / p as real == (q * p + r) as real / p as real
  {
    assert (q * p) as real == q as real * p as real;
  }

  /** Every rendering is made of digits, `-`, `.` and `,`; in particular it holds no line break. */
  lemma RenderingIsNumeric(x: real, d: nat)
    ensures NumericText(Fixed(x, d)) && NumericText(Grouped(x, d))
    ensures '\n' !in Fixed(x, d) && '\n' !in Grouped(x, d)
  {
    var n := RoundHalfEven(Abs(x), d);
    var ds := Digits(Quotient(n, Pow10(d)));
    var fr := FractionPart(n, d);
    GroupPositions(ds);
    var g := Group(ds);
    assert NumericText(fr) by { FractionChars(n, d); }
    ConcatNumeric(Sign(x), ds, fr);
    ConcatNumeric(Sign(x), g, fr);
  }

  /** A rendering is never empty, starts with `-` exactly for a negative number, holds no `,` or `+`,
      and ends in a digit. */
  lemma FixedShape(x: real, d: nat)
    ensures |Fixed(x, d)| >= 1 && ',' !in Fixed(x, d) && '+' !in Fixed(x, d)
    ensures Fixed(x, d)[0] == '-' <==> x < 0.0
    ensures IsDigit(Fixed(x, d)[|Fixed(x, d)| - 1])
  {
    var n := RoundHalfEven(Abs(x), d);
    UnsignedReadsBack(n, d);
    UnsignedChars(n, d);
    assert Fixed(x, d) == Sign(x) + Unsigned(n, d);
    SignedShape(Sign(x), Unsigned(n, d));
  }

  lemma SignedShape(sign: string, u: string)
    requires sign == "" || sign == "-"
    requires |u| >= 1 && IsDigit(u[0]) && IsDigit(u[|u| - 1])
    requires forall i :: 0 <= i < |u| ==> IsDigit(u[i]) || u[i] == '.'
    ensures var f := sign + u;
            && |f| >= 1 && ',' !in f && '+' !in f
            && (f[0] == '-' <==> sign == "-")
            && IsDigit(f[|f| - 1])
  {
    var f := sign + u;
    assert f[|f| - 1] == u[|u| - 1];
    forall i | 0 <= i < |f| ensures f[i] != ',' && f[i] != '+' {
      if i >= |sign| { assert f[i] == u[i - |sign|]; }
    }
  }

  lemma UnsignedChars(n: nat, d: nat)
    ensures forall i :: 0 <= i < |Unsigned(n, d)| ==> IsDigit(Unsigned(n, d)[i]) || Unsigned(n, d)[i] == '.'
    ensures |Unsigned(n, d)| >= 1 && IsDigit(Unsigned(n, d)[|Unsigned(n, d)| - 1])
  {
    var ds := Digits(Quotient(n, Pow10(d)));
    if d == 0 {
      assert Unsigned(n, d) == ds;
    } else {
      var z := ZeroPad(n % Pow10(d), d);
      ZeroPadCorrect(n % Pow10(d), d);
      assert Unsigned(n, d) == ds + "." + z;
      DottedChars(ds, z);
    }
  }

  lemma DottedChars(ds: string, z: string)
    requires AllDigits(ds) && AllDigits(z) && |z| >= 1
    ensures forall i :: 0 <= i < |ds + "." + z| ==> IsDigit((ds + "." + z)[i]) || (ds + "." + z)[i] == '.'
    ensures IsDigit((ds + "." + z)[|ds + "." + z| - 1])
  {
    var u := ds + "." + z;
    forall i | 0 <= i < |u| ensures IsDigit(u[i]) || u[i] == '.' {
      if i < |ds| { assert u[i] == ds[i]; }
      else if i > |ds| { assert u[i] == z[i - |ds| - 1]; }
    }
    assert u[|u| - 1] == z[|z| - 1];
  }

  lemma ConcatNumeric(a: string, b: string, c: string)
    requires a == "" || a == "-"
    requires NumericText(b) || AllDigits(b)
    requires NumericText(c)
    ensures NumericText(a + b + c) && '\n' !in a + b + c
  {
    var s := a + b + c;
    forall i | 0 <= i < |s| ensures IsDigit(s[i]) || s[i] in "-.," {
      if i < |a| { assert s[i] == '-'; }
      else if i < |a| + |b| { assert s[i] == b[i - |a|]; }
      else { assert s[i] == c[i - |a| - |b|]; }
    }
    forall i | 0 <= i < |s| ensures s[i] != '\n' {
      assert IsDigit(s[i]) || s[i] in "-.,";
    }
  }

  /** Python's `str.upper()` on ASCII: `a`..`z` become `A`..`Z`, everything else is kept. */
  function UpperChar(c: char): char {
    if 'a' <= c <= 'z' then (c as int - 32) as char else c
  }

  function Upper(s: string): (u: string)
    ensures |u| == |s| && forall i :: 0 <= i < |s| ==> u[i] == UpperChar(s[i])
  {
    seq(|s|, i requires 0 <= i < |s| => UpperChar(s[i]))
  }

  /** Upper-casing leaves no lower-case ASCII letter, is idempotent, and keeps line breaks where they were. */
  lemma UpperProperties(s: string)
    ensures forall i :: 0 <= i < |s| ==> !('a' <= Upper(s)[i] <= 'z')
    ensures Upper(Upper(s)) == Upper(s)
    ensures '\n' in Upper(s) <==> '\n' in s
  {
    if '\n' in Upper(s) {
      var i :| 0 <= i < |s| && Upper(s)[i] == '\n';
      assert s[i] == '\n';
    }
  }

  /** `s.replace(c, r)` for a one-character pattern: every occurrence of `c` is replaced. */
  function ReplaceAll(s: string, c: char, r: string): string {
    if s == [] then "" else (if s[0] == c then r else [s[0]]) + ReplaceAll(s[1..], c, r)
  }

  lemma {:induction false} ReplaceAllAppend(a: string, b: string, c: char, r: string)
    ensures ReplaceAll(a + b, c, r) == ReplaceAll(a, c, r) + ReplaceAll(b, c, r)
  {
    if a != [] {
      assert (a + b)[0] == a[0];
      assert (a + b)[1..] == a[1..] + b;
      ReplaceAllAppend(a[1..], b, c, r);
    } else {
      assert a + b == b;
    }
  }

  lemma {:induction false} ReplaceAllAbsent(s: string, c: char, r: string)
    requires c !in s
    ensures ReplaceAll(s, c, r) == s
  {
    if s != [] {
      ReplaceAllAbsent(s[1..], c, r);
    }
  }

  /** After the replacement no `c` is left, provided the replacement text holds none. */
  lemma {:induction false} ReplaceAllRemoves(s: string, c: char, r: string)
    requires c !in r
    ensures c !in ReplaceAll(s, c, r)
  {
    if s != [] {
      ReplaceAllRemoves(s[1..], c, r);
    }
  }

  /** The least `j` from `k` up to 17 with `exact(j)`, or 17 when there is none. */
  function FirstUpTo17(exact: nat -> bool, k: nat): (r: nat)
    requires 1 <= k <= 17
    ensures k <= r <= 17
    decreases 17 - k
  {
    if k == 17 || exact(k) then k else FirstUpTo17(exact, k + 1)
  }

  lemma {:induction false} FirstUpTo17Least(exact: nat -> bool, k: nat, j: nat)
    requires 1 <= k <= 17 && k <= j < FirstUpTo17(exact, k)
    ensures !exact(j)
    decreases 17 - k
  {
    if j > k {
      FirstUpTo17Least(exact, k + 1, j);
    }
  }

  lemma {:induction false} FirstUpTo17Found(exact: nat -> bool, k: nat, j: nat)
    requires 1 <= k <= j <= 17 && exact(j)
    ensures FirstUpTo17(exact, k) <= j && exact(FirstUpTo17(exact, k))
    decreases 17 - k
  {
    if k < 17 && !exact(k) {
      FirstUpTo17Found(exact, k + 1, j);
    }
  }

  /** The fewest decimals, from 1 up to 17, that show `x` exactly (17 when none do). */
  function MinDecimals(x: real): nat {
    FirstUpTo17((j: nat) => Rounded(x, j) == x, 1)
  }

  /** `str(x)` in positional notation, taken as the shortest rendering with at least one decimal
      that shows `x` exactly. Python prints the shortest one that rounds back to the same binary
      double, which is shorter for a value such as the double nearest 0.1. */
  function FloatText(x: real): string {
    Fixed(x, MinDecimals(x))
  }

  /** A value with at most 17 decimals is shown exactly, with the fewest decimals that do so. */
  lemma FloatTextReadsBack(x: real, j: nat)
    requires 1 <= j <= 17 && Rounded(x, j) == x
    ensures ParseDecimal(FloatText(x)) == Some(x)
    ensures MinDecimals(x) <= j
    ensures forall i :: 1 <= i < MinDecimals(x) ==> Rounded(x, i) != x
  {
    var exact := (i: nat) => Rounded(x, i) == x;
    assert exact(j);
    FirstUpTo17Found(exact, 1, j);
    var m := FirstUpTo17(exact, 1);
    assert m == MinDecimals(x);
    FixedReadsBack(x, m);
    forall i | 1 <= i < m ensures Rounded(x, i) != x {
      FirstUpTo17Least(exact, 1, i);
    }
  }

  /** The amount a price text shows: `$`, then a number whose `,` separators are ignored. */
  function ReadPrice(t: string): Option<real> {
    if |t| >= 1 && t[0] == '$' then ParseDecimal(RemoveCommas(t[1..])) else None
  }

  /** A `$` price, plain or with separators, reads back as the rounded value and is one line. */
  lemma DollarsReadBack(x: real, d: nat, grouped: bool)
    ensures var t := "$" + (if grouped then Grouped(x, d) else Fixed(x, d));
            && ReadPrice(t) == Some(Rounded(x, d))
            && '\n' !in t
            && (!grouped ==> ',' !in t)
  {
    var body := if grouped then Grouped(x, d) else Fixed(x, d);
    FixedReadsBack(x, d);
    RenderingIsNumeric(x, d);
    if grouped {
      GroupedUngroups(x, d);
    } else {
      FixedShape(x, d);
      RemoveCommasNone(Fixed(x, d));
    }
    DollarText(body, Fixed(x, d), Rounded(x, d));
  }

  lemma DollarText(body: string, plain: string, v: real)
    requires RemoveCommas(body) == plain && ParseDecimal(plain) == Some(v) && NumericText(body)
    ensures ReadPrice("$" + body) == Some(v)
    ensures '\n' !in "$" + body
    ensures ',' !in body ==> ',' !in "$" + body
  {
    var t := "$" + body;
    assert t[1..] == body;
    forall i | 0 <= i < |t| ensures t[i] != '\n' && (',' !in body ==> t[i] != ',') {
      if i > 0 { assert t[i] == body[i - 1]; }
    }
  }

  /** The value a percentage text shows: an optional `+`, a number, then `%`. */
  function ReadPercent(t: string): Option<real> {
    if |t| >= 2 && t[|t| - 1] == '%' then
      var body := if t[0] == '+' then t[1..|t| - 1] else t[..|t| - 1];
      ParseDecimal(body)
    else None
  }

  /** A number text, with a `+` in front or not and `%` behind, reads back as the number; it starts
      with `+` exactly when one was put there and is one line when the number is. */
  lemma SignedPercent(f: string, v: real, plus: bool)
    requires |f| >= 1 && '+' !in f && ParseDecimal(f) == Some(v)
    ensures var t := (if plus then "+" else "") + f + "%";
            && ReadPercent(t) == Some(v)
            && (t[0] == '+' <==> plus)
            && (t[0] == '-' <==> !plus && f[0] == '-')
            && ('\n' !in f ==> '\n' !in t)
            && (!plus ==> '+' !in t)
  {
    var t := (if plus then "+" else "") + f + "%";
    if plus {
      assert t == "+" + f + "%" && t[1..|t| - 1] == f;
      assert forall i :: 1 <= i < |t| - 1 ==> t[i] == f[i - 1];
    } else {
      assert t == f + "%" && t[..|t| - 1] == f && t[0] == f[0];
      assert forall i :: 0 <= i < |t| - 1 ==> t[i] == f[i];
    }
  }

  /** A `.2f` percentage with an optional `+` reads back as the value rounded to 2 decimals; it
      starts with `+` exactly when one was put there, with `-` exactly for a negative value, and
      is one line. */
  lemma PercentReadsBack(x: real, plus: bool)
    ensures var t := (if plus then "+" else "") + Fixed(x, 2) + "%";
            && ReadPercent(t) == Some(Rounded(x, 2))
            && (t[0] == '+' <==> plus)
            && (t[0] == '-' <==> !plus && x < 0.0)
            && '\n' !in t
            && (!plus ==> '+' !in t)
  {
    FixedShape(x, 2);
    FixedReadsBack(x, 2);
    RenderingIsNumeric(x, 2);
    SignedPercent(Fixed(x, 2), Rounded(x, 2), plus);
  }

  /** `s.split('\n')`. */
  function SplitLines(s: string): seq<string>
    decreases |s|
  {
    match IndexOf(s, '\n')
    case None => [s]
    case Some(k) => [s[..k]] + SplitLines(s[k + 1..])
  }

  lemma SplitLinesStep(a: string, b: string)
    requires '\n' !in a
    ensures SplitLines(a + "\n" + b) == [a] + SplitLines(b)
  {
    var s := a + "\n" + b;
    IndexOfAfter(a, '\n', b);
    assert s[..|a|] == a;
    assert s[|a| + 1..] == b;
  }

  /** The text of `lines`, each followed by a line break. */
  function Terminated(lines: seq<string>): string {
    if lines == [] then "" else lines[0] + "\n" + Terminated(lines[1..])
  }

  lemma {:induction false} SplitTerminated(lines: seq<string>, rest: string)
    requires forall i :: 0 <= i < |lines| ==> '\n' !in lines[i]
    ensures SplitLines(Terminated(lines) + rest) == lines + SplitLines(rest)
  {
    if lines != [] {
      var head, tail, after := lines[0], lines[1..], SplitLines(rest);
      SplitFirstLine(lines, rest);
      SplitTerminated(tail, rest);
      ConsAppend(lines, after);
    } else {
      assert Terminated(lines) + rest == rest;
    }
  }

  /** The first terminated line splits off, and the remaining lines are one line each. */
  lemma SplitFirstLine(lines: seq<string>, rest: string)
    requires lines != [] && forall i :: 0 <= i < |lines| ==> '\n' !in lines[i]
    ensures SplitLines(Terminated(lines) + rest) == [lines[0]] + SplitLines(Terminated(lines[1..]) + rest)
    ensures forall i :: 0 <= i < |lines[1..]| ==> '\n' !in lines[1..][i]
  {
    var head, tail := lines[0], lines[1..];
    var t := Terminated(tail) + rest;
    assert Terminated(lines) + rest == head + "\n" + t by {
      AppendAssoc(head + "\n", Terminated(tail), rest);
    }
    assert '\n' !in head;
    SplitLinesStep(head, t);
    forall i | 0 <= i < |tail| ensures '\n' !in tail[i] { assert tail[i] == lines[i + 1]; }
  }

  lemma ConsAppend<T>(s: seq<T>, after: seq<T>)
    requires s != []
    ensures [s[0]] + (s[1..] + after) == s + after
  {
    assert s == [s[0]] + s[1..];
  }

  lemma AppendAssoc(a: string, b: string, c: string)
    ensures (a + b) + c == a + (b + c)
  {
  }

  lemma {:induction false} TerminatedConcat(a: seq<string>, b: seq<string>)
    ensures Terminated(a + b) == Terminated(a) + Terminated(b)
  {
    if a != [] {
      assert (a + b)[1..] == a[1..] + b;
      TerminatedConcat(a[1..], b);
    } else {
      assert a + b == b;
    }
  }

  lemma TerminatedAppend(lines: seq<string>, l: string)
    ensures Terminated(lines + [l]) == Terminated(lines) + l + "\n"
  {
    TerminatedConcat(lines, [l]);
    assert Terminated([l]) == l + "\n" + Terminated([]);
  }

  /** Lines without line breaks. */
  predicate OneLine(lines: seq<string>) {
    forall i :: 0 <= i < |lines| ==> '\n' !in lines[i]
  }

  /** Lines without breaks, each terminated, then a last piece without one: splitting gives the
      lines and the piece back. */
  lemma SplitThen(lines: seq<string>, last: string)
    requires OneLine(lines) && '\n' !in last
    ensures SplitLines(Terminated(lines) + last) == lines + [last]
  {
    SplitTerminated(lines, last);
    SplitSingle(last);
  }

  /** One-line header lines and body lines, each terminated, then a last piece: splitting gives
      all of them back. */
  lemma SplitThenAfter(header: seq<string>, body: seq<string>, last: string)
    requires OneLine(header) && OneLine(body) && '\n' !in last
    ensures SplitLines(Terminated(header + body) + last) == header + body + [last]
  {
    OneLineConcat(header, body);
    SplitThen(header + body, last);
  }

  lemma OneLineConcat(a: seq<string>, b: seq<string>)
    requires OneLine(a) && OneLine(b)
    ensures OneLine(a + b)
  {
    assert forall i :: |a| <= i < |a + b| ==> (a + b)[i] == b[i - |a|];
  }

  lemma {:induction false} MapOneLine<A>(f: A -> string, s: seq<A>)
    requires forall k :: 0 <= k < |s| ==> '\n' !in f(s[k])
    ensures OneLine(Map(f, s))
  {
    MapAt(f, s);
  }

  lemma {:induction false} FlattenOneLine(blocks: seq<seq<string>>)
    requires forall k :: 0 <= k < |blocks| ==> OneLine(blocks[k])
    ensures OneLine(Flatten(blocks))
  {
    if blocks != [] {
      FlattenOneLine(blocks[..|blocks| - 1]);
      OneLineConcat(Flatten(blocks[..|blocks| - 1]), blocks[|blocks| - 1]);
    }
  }

  /** The text grows by one terminated line per element mapped. */
  lemma MapTerminatedStep<A>(f: A -> string, header: seq<string>, s: seq<A>, x: A)
    ensures Terminated(header + Map(f, s + [x])) == Terminated(header + Map(f, s)) + f(x) + "\n"
  {
    assert (s + [x])[..|s|] == s;
    assert header + Map(f, s + [x]) == (header + Map(f, s)) + [f(x)];
    TerminatedAppend(header + Map(f, s), f(x));
  }

  /** The text grows by the terminated block of the next element. */
  lemma FlattenTerminatedStep<A>(f: A -> seq<string>, header: seq<string>, s: seq<A>, i: nat)
    requires i < |s|
    ensures Terminated(header + Flatten(Map(f, s[..i + 1])))
            == Terminated(header + Flatten(Map(f, s[..i]))) + Terminated(f(s[i]))
  {
    assert s[..i + 1][..i] == s[..i];
    var prev := Map(f, s[..i]);
    var b := f(s[i]);
    assert Map(f, s[..i + 1]) == prev + [b];
    assert (prev + [b])[..|prev|] == prev;
    assert Flatten(prev + [b]) == Flatten(prev) + b;
    assert header + Flatten(prev + [b]) == (header + Flatten(prev)) + b;
    TerminatedConcat(header + Flatten(prev), b);
  }

  lemma SplitSingle(s: string)
    requires '\n' !in s
    ensures SplitLines(s) == [s]
  {
  }
}
