/** Calendar timestamps as the pipeline uses them: `datetime.fromisoformat` on the API's
    `last_updated` text, `datetime.isoformat` as its inverse, and the `strftime` pattern
    `%d/%m/%Y %H:%M UTC` that heads both notification messages. */
module DateTimes {
  import opened Common
  import opened Text

  /** A `datetime`; `offset` is the UTC offset in minutes of an aware value, `None` for a naive one. */
  datatype DateTime = DateTime(year: int, month: int, day: int, hour: int, minute: int,
                               second: int, microsecond: int, offset: Option<int>)

  datatype Time = Time(hour: nat, minute: nat, second: nat, microsecond: nat)

  predicate LeapYear(y: int) {
    y % 4 == 0 && (y % 100 != 0 || y % 400 == 0)
  }

  function DaysInMonth(y: int, m: int): int
    requires 1 <= m <= 12
  {
    if m == 2 then (if LeapYear(y) then 29 else 28)
    else if m == 4 || m == 6 || m == 9 || m == 11 then 30
    else 31
  }

  /** The field ranges `datetime` enforces, and an offset strictly inside one day. */
  predicate Valid(dt: DateTime) {
    && 1 <= dt.year <= 9999
    && 1 <= dt.month <= 12
    && 1 <= dt.day <= DaysInMonth(dt.year, dt.month)
    && 0 <= dt.hour < 24
    && 0 <= dt.minute < 60
    && 0 <= dt.second < 60
    && 0 <= dt.microsecond < 1000000
    && (dt.offset.Some? ==> -1440 < dt.offset.value < 1440)
  }

  /** A field of exactly `width` decimal digits. */
  function Number(s: string, width: nat): (r: Option<nat>)
    ensures r.Some? <==> |s| == width && AllDigits(s)
    ensures r.Some? ==> r.value == ParseNat(s)
  {
    if |s| == width && AllDigits(s) then Some(ParseNat(s)) else None
  }

  /** `YYYY-MM-DD`, rejected unless it names a real calendar day of the years 1..9999. */
  function ParseDate(s: string): (r: Option<(int, int, int)>)
    ensures r.Some? ==> 1 <= r.value.0 <= 9999 && 1 <= r.value.1 <= 12
                        && 1 <= r.value.2 <= DaysInMonth(r.value.0, r.value.1)
  {
    if |s| == 10 && s[4] == '-' && s[7] == '-' then
      match (Number(s[..4], 4), Number(s[5..7], 2), Number(s[8..], 2))
      case (Some(y), Some(m), Some(d)) =>
        ParseBelow(s[..4]);
        Pow10Values();
        if 1 <= y && 1 <= m <= 12 && 1 <= d <= DaysInMonth(y, m) then Some((y as int, m as int, d as int))
        else None
      case _ => None
    else None
  }

  /** The digits after the decimal point of the seconds, as microseconds (one to six digits). */
  function Fraction(f: string): (r: Option<nat>)
    ensures r.Some? ==> r.value < 1000000
  {
    if 1 <= |f| <= 6 && AllDigits(f) then
      Pow10Values();
      FractionFits(f);
      Some(ParseNat(f) * Pow10(6 - |f|))
    else None
  }

  /** `HH:MM`, `HH:MM:SS` or `HH:MM:SS.f` with one to six fraction digits. */
  function ParseTime(t: string): (r: Option<Time>)
    ensures r.Some? ==> r.value.hour < 24 && r.value.minute < 60 && r.value.second < 60
                        && r.value.microsecond < 1000000
  {
    if |t| < 5 || t[2] != ':' then None
    else if |t| == 5 then Clock(t[..2], t[3..5], "00", Some(0))
    else if |t| < 8 || t[5] != ':' then None
    else if |t| == 8 then Clock(t[..2], t[3..5], t[6..8], Some(0))
    else if t[8] != '.' then None
    else Clock(t[..2], t[3..5], t[6..8], Fraction(t[9..]))
  }

  function Clock(hs: string, ms: string, ss: string, us: Option<nat>): (r: Option<Time>)
    ensures r.Some? ==> r.value.hour < 24 && r.value.minute < 60 && r.value.second < 60
                        && r.value.microsecond < 1000000
  {
    match (Number(hs, 2), Number(ms, 2), Number(ss, 2), us)
    case (Some(h), Some(m), Some(sec), Some(u)) =>
      if h < 24 && m < 60 && sec < 60 && u < 1000000 then Some(Time(h, m, sec, u)) else None
    case _ => None
  }

  /** `+HH:MM` or `-HH:MM`, in minutes east of UTC. */
  function ParseOffset(o: string): (r: Option<int>)
    ensures r.Some? ==> -1440 < r.value < 1440
  {
    if |o| == 6 && o[0] in "+-" && o[3] == ':' then
      match (Number(o[1..3], 2), Number(o[4..], 2))
      case (Some(h), Some(m)) =>
        var v: int := h * 60 + m;
        if h < 24 && m < 60 then Some(if o[0] == '-' then -v else v) else None
      case _ => None
    else None
  }

  /** `datetime.fromisoformat(s)` on the subset `YYYY-MM-DD[<c>HH:MM[:SS[.f]][(+|-)HH:MM]]`, where
      `<c>` is any one character; `None` stands for the `ValueError` it raises otherwise. */
  function ParseIso(s: string): (r: Option<DateTime>)
    ensures r.Some? ==> Valid(r.value)
  {
    if |s| < 10 then None
    else match ParseDate(s[..10])
      case None => None
      case Some((y, mo, d)) =>
        if |s| == 10 then Some(DateTime(y, mo, d, 0, 0, 0, 0, None))
        else match TimeAndOffset(s[11..])
          case None => None
          case Some((t, o)) => Some(DateTime(y, mo, d, t.hour, t.minute, t.second, t.microsecond, o))
  }

  /** What follows the separator: a time, then an offset if the text ends in one. */
  function TimeAndOffset(rest: string): (r: Option<(Time, Option<int>)>)
    ensures r.Some? ==> var t := r.value.0;
                        t.hour < 24 && t.minute < 60 && t.second < 60 && t.microsecond < 1000000
                        && (r.value.1.Some? ==> -1440 < r.value.1.value < 1440)
  {
    if |rest| >= 6 && rest[|rest| - 6] in "+-" then
      match (ParseTime(rest[..|rest| - 6]), ParseOffset(rest[|rest| - 6..]))
      case (Some(t), Some(o)) => Some((t, Some(o)))
      case _ => None
    else
      match ParseTime(rest)
      case Some(t) => Some((t, None))
      case None => None
  }

  /** Scaling a fraction of k <= 6 digits up to six digits stays below one second. */
  lemma FractionFits(f: string)
    requires 1 <= |f| <= 6 && AllDigits(f)
    ensures ParseNat(f) * Pow10(6 - |f|) < 1000000
  {
    var k := |f|;
    ParseBelow(f);
    Pow10Split(k, 6 - k);
    Pow10Values();
    BelowScaled(ParseNat(f), Pow10(k), Pow10(6 - k));
  }

  lemma {:induction false} ParseBelow(s: string)
    requires AllDigits(s)
    ensures ParseNat(s) < Pow10(|s|)
  {
    if s != [] {
      ParseBelow(s[..|s| - 1]);
    }
  }

  lemma {:induction false} Pow10Split(a: nat, b: nat)
    ensures Pow10(a + b) == Pow10(a) * Pow10(b)
  {
    if a > 0 {
      Pow10Split(a - 1, b);
    }
  }

  lemma BelowScaled(v: nat, p: nat, q: nat)
    requires v < p && q >= 1
    ensures v * q < p * q
  {
  }

  /** `dt.isoformat()`: the fraction only when microseconds are non-zero, the offset only when aware. */
  function IsoFormat(dt: DateTime): string
    requires Valid(dt)
  {
    DatePart(dt.year, dt.month, dt.day) + "T" + TimePart(dt.hour, dt.minute, dt.second, dt.microsecond)
    + OffsetText(dt.offset)
  }

  function DatePart(y: nat, m: nat, d: nat): string {
    ZeroPad(y, 4) + "-" + ZeroPad(m, 2) + "-" + ZeroPad(d, 2)
  }

  function TimePart(h: nat, m: nat, s: nat, us: nat): string {
    ZeroPad(h, 2) + ":" + ZeroPad(m, 2) + ":" + ZeroPad(s, 2)
    + (if us == 0 then "" else "." + ZeroPad(us, 6))
  }

  function OffsetText(o: Option<int>): string {
    match o
    case None => ""
    case Some(v) =>
      var a := if v < 0 then -v else v;
      (if v < 0 then "-" else "+") + ZeroPad(a / 60, 2) + ":" + ZeroPad(a % 60, 2)
  }

  /** A number below 10^w reads back from its `w`-digit rendering. */
  lemma PadReadsBack(n: nat, w: nat)
    requires 1 <= w && n < Pow10(w)
    ensures Number(ZeroPad(n, w), w) == Some(n)
  {
    ZeroPadCorrect(n, w);
  }

  lemma DateReadsBack(y: nat, m: nat, d: nat)
    requires 1 <= y <= 9999 && 1 <= m <= 12 && 1 <= d <= DaysInMonth(y, m)
    ensures |DatePart(y, m, d)| == 10
    ensures ParseDate(DatePart(y, m, d)) == Some((y as int, m as int, d as int))
  {
    Pow10Values();
    PadReadsBack(y, 4);
    PadReadsBack(m, 2);
    PadReadsBack(d, 2);
    var s := DatePart(y, m, d);
    assert s[..4] == ZeroPad(y, 4);
    assert s[5..7] == ZeroPad(m, 2);
    assert s[8..] == ZeroPad(d, 2);
  }

  lemma TimeReadsBack(h: nat, m: nat, s: nat, us: nat)
    requires h < 24 && m < 60 && s < 60 && us < 1000000
    ensures ParseTime(TimePart(h, m, s, us)) == Some(Time(h, m, s, us))
    ensures |TimePart(h, m, s, us)| >= 6 && TimePart(h, m, s, us)[|TimePart(h, m, s, us)| - 6] !in "+-"
  {
    Pow10Values();
    PadReadsBack(h, 2);
    PadReadsBack(m, 2);
    PadReadsBack(s, 2);
    var hs, ms, ss := ZeroPad(h, 2), ZeroPad(m, 2), ZeroPad(s, 2);
    if us == 0 {
      ClockText(hs, ms, ss, "");
      assert TimePart(h, m, s, us) == hs + ":" + ms + ":" + ss + "";
    } else {
      var f := ZeroPad(us, 6);
      PadReadsBack(us, 6);
      assert Fraction(f) == Some(us) by {
        assert 6 - |f| == 0;
      }
      ClockText(hs, ms, ss, f);
      assert TimePart(h, m, s, us) == hs + ":" + ms + ":" + ss + ("." + f);
    }
  }

  /** How `ParseTime` splits `HH:MM:SS` with an optional six-digit fraction. */
  lemma ClockText(hs: string, ms: string, ss: string, f: string)
    requires |hs| == 2 && |ms| == 2 && |ss| == 2 && AllDigits(ss)
    requires f == "" || (|f| == 6 && AllDigits(f))
    ensures var t := hs + ":" + ms + ":" + ss + (if f == "" then "" else "." + f);
            && ParseTime(t) == Clock(hs, ms, ss, if f == "" then Some(0) else Fraction(f))
            && |t| >= 6 && t[|t| - 6] !in "+-"
  {
    var t := hs + ":" + ms + ":" + ss + (if f == "" then "" else "." + f);
    assert t[..2] == hs && t[2] == ':' && t[3..5] == ms && t[5] == ':' && t[6..8] == ss;
    if f == "" {
      assert |t| == 8;
      assert t[2] == ':';
    } else {
      assert t[8] == '.' && t[9..] == f;
      assert t[|t| - 6] == f[0];
    }
  }

  lemma OffsetReadsBack(o: int)
    requires -1440 < o < 1440
    ensures |OffsetText(Some(o))| == 6 && OffsetText(Some(o))[0] in "+-"
    ensures ParseOffset(OffsetText(Some(o))) == Some(o)
  {
    var a: nat := if o < 0 then -o else o;
    var h, m := a / 60, a % 60;
    MinutesSplit(a);
    var hs, ms := ZeroPad(h, 2), ZeroPad(m, 2);
    assert Number(hs, 2) == Some(h) && Number(ms, 2) == Some(m) by {
      Pow10Values();
      PadReadsBack(h, 2);
      PadReadsBack(m, 2);
    }
    var sign := if o < 0 then '-' else '+';
    OffsetTextPieces(o);
    OffsetOf(OffsetText(Some(o)), sign, hs, ms, h, m);
  }

  lemma MinutesSplit(a: nat)
    requires a < 1440
    ensures a / 60 < 24 && a % 60 < 60 && a / 60 * 60 + a % 60 == a
  {
  }

  lemma OffsetTextPieces(o: int)
    ensures var a := if o < 0 then -o else o;
            OffsetText(Some(o)) == [if o < 0 then '-' else '+'] + ZeroPad(a / 60, 2) + ":" + ZeroPad(a % 60, 2)
  {
  }

  lemma OffsetOf(t: string, sign: char, hs: string, ms: string, h: nat, m: nat)
    requires sign == '+' || sign == '-'
    requires |hs| == 2 && |ms| == 2 && t == [sign] + hs + ":" + ms
    requires Number(hs, 2) == Some(h) && Number(ms, 2) == Some(m) && h < 24 && m < 60
    ensures |t| == 6 && t[0] in "+-"
    ensures ParseOffset(t) == Some(if sign == '-' then -(h * 60 + m) else h * 60 + m)
  {
    OffsetFieldsOf(t, sign, hs, ms);
  }

  /** `fromisoformat` inverts `isoformat` on every valid `datetime`. */
  lemma IsoRoundTrip(dt: DateTime)
    requires Valid(dt)
    ensures ParseIso(IsoFormat(dt)) == Some(dt)
  {
    var y, mo, d: nat := dt.year, dt.month, dt.day;
    var h, mi, sec, us: nat := dt.hour, dt.minute, dt.second, dt.microsecond;
    var dp := DatePart(y, mo, d);
    var tp, op := TimePart(h, mi, sec, us), OffsetText(dt.offset);
    var rest := tp + op;
    var s := dp + "T" + rest;
    assert IsoFormat(dt) == s by {
      assert IsoFormat(dt) == dp + "T" + tp + op;
      AppendAssoc(dp + "T", tp, op);
    }
    DateReadsBack(y, mo, d);
    RestReadsBack(h, mi, sec, us, dt.offset);
    IsoSplit(s, dp, rest);
    ParsedParts(s, (y as int, mo as int, d as int), Time(h, mi, sec, us), dt.offset);
  }

  lemma ParsedParts(s: string, ymd: (int, int, int), t: Time, o: Option<int>)
    requires |s| > 10 && ParseDate(s[..10]) == Some(ymd) && TimeAndOffset(s[11..]) == Some((t, o))
    ensures ParseIso(s) == Some(DateTime(ymd.0, ymd.1, ymd.2, t.hour, t.minute, t.second, t.microsecond, o))
  {
  }

  lemma IsoSplit(s: string, dp: string, rest: string)
    requires |dp| == 10 && s == dp + "T" + rest
    ensures s[..10] == dp && s[11..] == rest && |s| > 10
  {
  }

  lemma RestReadsBack(h: nat, m: nat, s: nat, us: nat, o: Option<int>)
    requires h < 24 && m < 60 && s < 60 && us < 1000000
    requires o.Some? ==> -1440 < o.value < 1440
    ensures TimeAndOffset(TimePart(h, m, s, us) + OffsetText(o)) == Some((Time(h, m, s, us), o))
  {
    var tp := TimePart(h, m, s, us);
    TimeReadsBack(h, m, s, us);
    if o.Some? {
      OffsetReadsBack(o.value);
      SplitOffset(tp, OffsetText(o));
    } else {
      assert tp + OffsetText(o) == tp;
    }
  }

  lemma SplitOffset(tp: string, op: string)
    requires |op| == 6 && op[0] in "+-"
    ensures var rest := tp + op;
            |rest| >= 6 && rest[|rest| - 6] in "+-" && rest[..|rest| - 6] == tp && rest[|rest| - 6..] == op
  {
    var rest := tp + op;
    assert rest[|rest| - 6] == op[0];
    assert rest[..|rest| - 6] == tp;
  }

  /** The string the API sends for midnight UTC on 1 December 2024 parses to that instant. */
  lemma MidnightExample()
    ensures ParseIso("2024-12-01T00:00:00+00:00") == Some(DateTime(2024, 12, 1, 0, 0, 0, 0, Some(0)))
  {
    var s := "2024-12-01T00:00:00+00:00";
    assert s == "2024-12-01" + "T" + "00:00:00+00:00";
    IsoSplit(s, "2024-12-01", "00:00:00+00:00");
    MidnightDate();
    MidnightClock();
    ParsedParts(s, (2024, 12, 1), Time(0, 0, 0, 0), Some(0));
  }

  lemma MidnightDate()
    ensures ParseDate("2024-12-01") == Some((2024, 12, 1))
  {
    var s := "2024-12-01";
    assert s == "2024" + "-" + "12" + "-" + "01";
    DateFieldsOf(s, "2024", "12", "01");
    assert ParseNat("2024") == 2024 by {
      assert "2024"[..3] == "202" && "202"[..2] == "20" && "20"[..1] == "2" && "2"[..0] == "";
    }
    assert ParseNat("12") == 12 by { assert "12"[..1] == "1" && "1"[..0] == ""; }
    assert ParseNat("01") == 1 by { assert "01"[..1] == "0" && "0"[..0] == ""; }
  }

  lemma MidnightClock()
    ensures TimeAndOffset("00:00:00+00:00") == Some((Time(0, 0, 0, 0), Some(0)))
  {
    var r := "00:00:00+00:00";
    assert r == "00:00:00" + "+00:00";
    SplitOffset("00:00:00", "+00:00");
    ZeroClock();
    ZeroOffset();
  }

  lemma ZeroPair()
    ensures ParseNat("00") == 0
  {
    assert "00"[..1] == "0" && "0"[..0] == "";
  }

  lemma ZeroClock()
    ensures ParseTime("00:00:00") == Some(Time(0, 0, 0, 0))
  {
    assert "00:00:00" == "00" + ":" + "00" + ":" + "00";
    ClockFieldsOf("00:00:00", "00", "00", "00");
    ZeroPair();
  }

  lemma ZeroOffset()
    ensures ParseOffset("+00:00") == Some(0)
  {
    assert "+00:00" == "+" + "00" + ":" + "00";
    OffsetFieldsOf("+00:00", '+', "00", "00");
    ZeroPair();
  }

  lemma DateFieldsOf(s: string, ys: string, ms: string, ds: string)
    requires |ys| == 4 && |ms| == 2 && |ds| == 2 && s == ys + "-" + ms + "-" + ds
    ensures |s| == 10 && s[4] == '-' && s[7] == '-' && s[..4] == ys && s[5..7] == ms && s[8..] == ds
  {
  }

  lemma ClockFieldsOf(t: string, hs: string, ms: string, ss: string)
    requires |hs| == 2 && |ms| == 2 && |ss| == 2 && t == hs + ":" + ms + ":" + ss
    ensures |t| == 8 && t[2] == ':' && t[5] == ':' && t[..2] == hs && t[3..5] == ms && t[6..8] == ss
  {
  }

  lemma OffsetFieldsOf(o: string, sign: char, hs: string, ms: string)
    requires |hs| == 2 && |ms| == 2 && o == [sign] + hs + ":" + ms
    ensures |o| == 6 && o[0] == sign && o[3] == ':' && o[1..3] == hs && o[4..] == ms
  {
  }

  /** `dt.strftime('%d/%m/%Y %H:%M UTC')`: the fields of `dt` itself, whatever its offset; "UTC" is literal
      text. `%Y` prints the year's digits as they are. */
  function Stamp(dt: DateTime): string
    requires Valid(dt)
  {
    ZeroPad(dt.day, 2) + "/" + ZeroPad(dt.month, 2) + "/" + Digits(dt.year) + " "
    + ZeroPad(dt.hour, 2) + ":" + ZeroPad(dt.minute, 2) + " UTC"
  }

  /** Reads day, month, year, hour and minute back out of a `Stamp`: `DD/MM/` in front, the year's
      digits in the middle and ` HH:MM UTC` at the end. */
  function ReadStamp(s: string): Option<(nat, nat, nat, nat, nat)> {
    if |s| >= 17 then
      match (ReadDayMonth(s[..6]), Whole(s[6..|s| - 10]), ReadClock(s[|s| - 10..]))
      case (Some((d, m)), Some(y), Some((h, mi))) => Some((d, m, y, h, mi))
      case _ => None
    else None
  }

  /** A non-empty run of decimal digits. */
  function Whole(s: string): (r: Option<nat>)
    ensures r.Some? <==> |s| >= 1 && AllDigits(s)
    ensures r.Some? ==> r.value == ParseNat(s)
  {
    if |s| >= 1 && AllDigits(s) then Some(ParseNat(s)) else None
  }

  function ReadDayMonth(s: string): Option<(nat, nat)> {
    if |s| == 6 && s[2] == '/' && s[5] == '/' then
      match (Number(s[..2], 2), Number(s[3..5], 2))
      case (Some(d), Some(m)) => Some((d, m))
      case _ => None
    else None
  }

  function ReadClock(s: string): Option<(nat, nat)> {
    if |s| == 10 && s[0] == ' ' && s[3] == ':' && s[6..] == " UTC" then
      match (Number(s[1..3], 2), Number(s[4..6], 2))
      case (Some(h), Some(mi)) => Some((h, mi))
      case _ => None
    else None
  }

  /** The message timestamp shows exactly the day, month, year, hour and minute of `dt`, and is one line. */
  lemma StampReadsBack(dt: DateTime)
    requires Valid(dt)
    ensures ReadStamp(Stamp(dt)) == Some((dt.day as nat, dt.month as nat, dt.year as nat, dt.hour as nat, dt.minute as nat))
    ensures '\n' !in Stamp(dt)
  {
    Pow10Values();
    PadReadsBack(dt.day, 2);
    PadReadsBack(dt.month, 2);
    PadReadsBack(dt.hour, 2);
    PadReadsBack(dt.minute, 2);
    ParseDigits(dt.year);
    var dd, mm, yy, hh, mi := ZeroPad(dt.day, 2), ZeroPad(dt.month, 2), Digits(dt.year), ZeroPad(dt.hour, 2), ZeroPad(dt.minute, 2);
    var s := dd + "/" + mm + "/" + yy + " " + hh + ":" + mi + " UTC";
    assert Stamp(dt) == s;
    StampSlices(dd, mm, yy, hh, mi);
    DayMonthFields(dd, mm);
    ClockFields(hh, mi);
    StampFields(s, (dt.day, dt.month), dt.year, (dt.hour, dt.minute));
    NoDotInDigits(dd);
    NoDotInDigits(mm);
    NoDotInDigits(yy);
    NoDotInDigits(hh);
    NoDotInDigits(mi);
    NoBreak(dd, mm, yy, hh, mi);
  }

  lemma StampSlices(dd: string, mm: string, yy: string, hh: string, mi: string)
    requires |dd| == 2 && |mm| == 2 && |hh| == 2 && |mi| == 2 && |yy| >= 1
    ensures var s := dd + "/" + mm + "/" + yy + " " + hh + ":" + mi + " UTC";
            |s| == 16 + |yy| && s[..6] == dd + "/" + mm + "/" && s[6..|s| - 10] == yy
            && s[|s| - 10..] == " " + hh + ":" + mi + " UTC"
  {
    var head, tail := dd + "/" + mm + "/", " " + hh + ":" + mi + " UTC";
    var s := dd + "/" + mm + "/" + yy + " " + hh + ":" + mi + " UTC";
    assert s == head + yy + tail;
  }

  lemma StampFields(s: string, dm: (nat, nat), y: nat, hm: (nat, nat))
    requires |s| >= 17 && ReadDayMonth(s[..6]) == Some(dm) && Whole(s[6..|s| - 10]) == Some(y)
    requires ReadClock(s[|s| - 10..]) == Some(hm)
    ensures ReadStamp(s) == Some((dm.0, dm.1, y, hm.0, hm.1))
  {
  }

  lemma DayMonthFields(dd: string, mm: string)
    requires |dd| == 2 && |mm| == 2 && AllDigits(dd) && AllDigits(mm)
    ensures ReadDayMonth(dd + "/" + mm + "/") == Some((ParseNat(dd), ParseNat(mm)))
  {
    var s := dd + "/" + mm + "/";
    assert s[..2] == dd && s[3..5] == mm;
  }

  lemma ClockFields(hh: string, mi: string)
    requires |hh| == 2 && |mi| == 2 && AllDigits(hh) && AllDigits(mi)
    ensures ReadClock(" " + hh + ":" + mi + " UTC") == Some((ParseNat(hh), ParseNat(mi)))
  {
    ClockSlices(hh, mi, " UTC");
  }

  lemma ClockSlices(hh: string, mi: string, u: string)
    requires |hh| == 2 && |mi| == 2 && |u| == 4
    ensures var s := " " + hh + ":" + mi + u;
            && |s| == 10 && s[0] == ' ' && s[3] == ':'
            && s[1..3] == hh && s[4..6] == mi && s[6..] == u
  {
    var s := " " + hh + ":" + mi + u;
    assert s[1..3] == hh;
    assert s[4..6] == mi;
    assert s[6..] == u;
  }

  lemma NoBreak(dd: string, mm: string, yy: string, hh: string, mi: string)
    requires '\n' !in dd && '\n' !in mm && '\n' !in yy && '\n' !in hh && '\n' !in mi
    ensures '\n' !in dd + "/" + mm + "/" + yy + " " + hh + ":" + mi + " UTC"
  {
  }
}
