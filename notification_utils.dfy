/** The Telegram messages the pipeline sends: the price summary for every run and the alert
    message when some coin moved past the threshold. Both texts are built by appending to a
    string; both are Markdown with emoji. */
module NotificationUtils {
  import opened Common
  import opened Text
  import opened DateTimes
  import opened Records
  import opened ApiUtils

  const Rocket := "\U{1F680}"
  const Calendar := "\U{1F4C5}"
  const Sideways := "\U{27A1}\U{FE0F}"
  const MoneyBag := "\U{1F4B0}"
  const WarningSign := "\U{26A0}\U{FE0F}"
  const Target := "\U{1F3AF}"
  const Bulb := "\U{1F4A1}"

  /* ---------------------------------------------------------------- shared pieces */

  /** A price in a message: `,.2f` from 1000 up, `.4f` below. */
  function MessagePrice(price: real): string {
    if price >= 1000.0 then "$" + Grouped(price, 2) else "$" + Fixed(price, 4)
  }

  /** The decimals a message price shows. */
  function MessageDecimals(price: real): nat {
    if price >= 1000.0 then 2 else 4
  }

  /** A message price reads back as the price rounded to its decimals, on one line, and carries
      separators only from 1000 up. */
  lemma MessagePriceReadsBack(price: real)
    ensures ReadPrice(MessagePrice(price)) == Some(Rounded(price, MessageDecimals(price)))
    ensures '\n' !in MessagePrice(price)
    ensures price < 1000.0 ==> ',' !in MessagePrice(price)
  {
    DollarsReadBack(price, MessageDecimals(price), price >= 1000.0);
  }

  /* ---------------------------------------------------------------- price summary */

  /** The trend mark of a summary line. */
  function TrendMark(pct: real): string {
    if pct > 0.0 then Rising else if pct < 0.0 then Falling else Sideways
  }

  /** The change of a summary line: an explicit `+` when positive, a literal `0.00%` at zero. */
  function ChangeText(pct: real): string {
    if pct > 0.0 then "+" + Fixed(pct, 2) + "%"
    else if pct < 0.0 then Fixed(pct, 2) + "%"
    else "0.00%"
  }

  /** The change reads back as the value rounded to 2 decimals; it starts with `+` exactly for a
      rise and with `-` exactly for a fall. */
  lemma ChangeTextMeaning(pct: real)
    ensures var t := ChangeText(pct);
            && ReadPercent(t) == Some(Rounded(pct, 2))
            && (t[0] == '+' <==> pct > 0.0)
            && (t[0] == '-' <==> pct < 0.0)
            && '\n' !in t
  {
    if pct == 0.0 {
      ZeroChange();
    }
    assert ChangeText(pct) == (if pct > 0.0 then "+" else "") + Fixed(pct, 2) + "%";
    PercentReadsBack(pct, pct > 0.0);
  }

  /** At zero the literal `0.00%` is what `.2f` would print. */
  lemma ZeroChange()
    ensures ChangeText(0.0) == Fixed(0.0, 2) + "%"
  {
    Pow10Values();
    assert RoundHalfEven(0.0, 2) == 0 by {
      assert RoundScaled(0.0) == 0;
    }
    assert Digits(Quotient(0, Pow10(2))) == "0";
    assert ZeroPad(0 % Pow10(2), 2) == "00" by {
      assert Digits(0) == "0";
      assert Zeros(1) == "0";
    }
  }

  /** What one summary line shows: the upper-cased symbol, the price and the 24h change. */
  datatype SummaryItem = SummaryItem(symbol: string, price: real, changePct: real)

  /** The values of one summary line, read in the order the loop reads them, or the exception
      that reading them raises: `KeyError`/`AttributeError` from the symbol, `KeyError` for a
      missing price, `TypeError` when the change or the price is `None` (comparing it with 0 or
      1000). */
  function SummaryFields<TS>(item: CryptoRecord<TS>): Result<SummaryItem> {
    match UpperSymbol(item.symbol)
    case Err(e) => Err(e)
    case Ok(sym) =>
      match Index(item.currentPrice, "current_price")
      case Err(e) => Err(e)
      case Ok(price) =>
        match (Change(item), price)
        case (Val(pct), Val(p)) => Ok(SummaryItem(sym, p, pct))
        case _ => Err(TypeError)
  }

  /** One line of the summary, without its line break. */
  function SummaryLine(s: SummaryItem): string {
    TrendMark(s.changePct) + " *" + s.symbol + "*: " + MessagePrice(s.price) + " (" + ChangeText(s.changePct) + ")"
  }

  /** The values of every summary line in order, or the first exception. */
  function SummaryItems<TS>(data: seq<CryptoRecord<TS>>): Result<seq<SummaryItem>> {
    Collect(SummaryFields, data)
  }

  /** `sum(item.get('total_volume', 0) for item in data)`: a `None` volume raises `TypeError`. */
  function VolumeSum<TS>(data: seq<CryptoRecord<TS>>): Result<real> {
    if data == [] then Ok(0.0)
    else match VolumeSum(data[..|data| - 1])
      case Err(e) => Err(e)
      case Ok(s) =>
        match Get(data[|data| - 1].totalVolume, 0.0)
        case Null => Err(TypeError)
        case Val(v) => Ok(s + v)
  }

  /** The header of the summary: a title, the timestamp and a blank line. */
  function SummaryHeader(timestamp: string): seq<string> {
    [Rocket + " *Crypto Price Update*", Calendar + " _" + timestamp + "_", ""]
  }

  /** The last line: the total volume in billions with 2 decimals. */
  function FooterLine(total: real): string {
    MoneyBag + " _Total 24h Volume: $" + Fixed(total / 1000000000.0, 2) + "B_"
  }

  /** The summary text for `data` at `executionDate`, or the first exception. */
  function Summary<TS>(data: seq<CryptoRecord<TS>>, executionDate: DateTime): Result<string>
    requires Valid(executionDate)
  {
    match SummaryItems(data)
    case Err(e) => Err(e)
    case Ok(items) =>
      match VolumeSum(data)
      case Err(e) => Err(e)
      case Ok(total) =>
        Ok(Terminated(SummaryHeader(Stamp(executionDate)) + Map(SummaryLine, items) + [""]) + FooterLine(total))
  }

  /** `format_crypto_summary`. */
  method FormatCryptoSummary<TS>(data: seq<CryptoRecord<TS>>, executionDate: DateTime) returns (r: Result<string>)
    requires Valid(executionDate)
    ensures r == Summary(data, executionDate)
  {
    var timestamp := Stamp(executionDate);
    var title := Rocket + " *Crypto Price Update*";
    var dateLine := Calendar + " _" + timestamp + "_";
    var message := title + "\n";
    message := message + (dateLine + "\n\n");
    TerminatedTwoThenBlank(title, dateLine);
    ghost var items: seq<SummaryItem> := [];
    assert data[..0] == [] && SummaryHeader(timestamp) + Map(SummaryLine, items) == SummaryHeader(timestamp);
    var i := 0;
    while i < |data|
      invariant 0 <= i <= |data|
      invariant SummaryItems(data[..i]) == Ok(items)
      invariant message == Terminated(SummaryHeader(timestamp) + Map(SummaryLine, items))
    {
      var fields := SummaryFields(data[i]);
      if fields.Err? {
        ItemsStop(data, i, items);
        return Err(fields.error);
      }
      var s := fields.value;
      var trendEmoji := TrendMark(s.changePct);
      var changeText := ChangeText(s.changePct);
      var priceStr := MessagePrice(s.price);
      var line := trendEmoji + " *" + s.symbol + "*: " + priceStr + " (" + changeText + ")";
      CollectAppend(SummaryFields, data, i);
      MapTerminatedStep(SummaryLine, SummaryHeader(timestamp), items, s);
      message := message + line + "\n";
      items := items + [s];
      i := i + 1;
    }
    assert data[..i] == data;
    var total := VolumeSum(data);
    if total.Err? {
      return Err(total.error);
    }
    var footer := MoneyBag + " _Total 24h Volume: $" + Fixed(total.value / 1000000000.0, 2) + "B_";
    BlankTerminated(SummaryHeader(timestamp) + Map(SummaryLine, items));
    message := message + "\n" + footer;
    r := Ok(message);
  }

  /** The loop stops at the first record whose values cannot be read, with its exception. */
  lemma ItemsStop<TS>(data: seq<CryptoRecord<TS>>, i: nat, items: seq<SummaryItem>)
    requires i < |data| && SummaryItems(data[..i]) == Ok(items) && SummaryFields(data[i]).Err?
    ensures SummaryItems(data) == Err(SummaryFields(data[i]).error)
  {
    CollectAppend(SummaryFields, data, i);
    CollectErrorPrefix(SummaryFields, data, i + 1);
  }

  /** A final blank line adds one line break. */
  lemma BlankTerminated(lines: seq<string>)
    ensures Terminated(lines + [""]) == Terminated(lines) + "\n"
  {
    TerminatedAppend(lines, "");
    assert Terminated(lines) + "" == Terminated(lines);
  }

  /** A line's values are read exactly when the symbol, the price and the change are all there
      and not `None`; they are then the upper-cased symbol, the price and the change (0 when the
      key is missing). */
  lemma SummaryFieldsContent<TS>(item: CryptoRecord<TS>)
    ensures SummaryFields(item).Ok? <==>
      && item.symbol.Present? && item.symbol.value.Val?
      && item.currentPrice.Present? && item.currentPrice.value.Val?
      && Change(item).Val?
    ensures SummaryFields(item).Ok? ==>
      SummaryFields(item).value ==
        SummaryItem(Upper(item.symbol.value.value), item.currentPrice.value.value, Change(item).value)
    ensures item.priceChangePercentage24h.Absent? && SummaryFields(item).Ok? ==>
      SummaryFields(item).value.changePct == 0.0
    ensures item.symbol.Absent? ==> SummaryFields(item) == Err(KeyError("symbol"))
    ensures item.symbol == Present(Null) ==> SummaryFields(item) == Err(AttributeError)
    ensures item.symbol.Present? && item.symbol.value.Val? && item.currentPrice.Absent? ==>
      SummaryFields(item) == Err(KeyError("current_price"))
  {
  }

  /** A summary line whose symbol has no line break is one line. */
  lemma SummaryLineOneLine(s: SummaryItem)
    requires '\n' !in s.symbol
    ensures '\n' !in SummaryLine(s)
  {
    MessagePriceOneLine(s.price);
    ChangeTextOneLine(s.changePct);
    assert '\n' !in TrendMark(s.changePct);
    LinePieces(TrendMark(s.changePct), s.symbol, MessagePrice(s.price), ChangeText(s.changePct));
  }

  lemma LinePieces(mark: string, sym: string, price: string, change: string)
    requires '\n' !in mark && '\n' !in sym && '\n' !in price && '\n' !in change
    ensures '\n' !in mark + " *" + sym + "*: " + price + " (" + change + ")"
  {
  }

  lemma MessagePriceOneLine(price: real)
    ensures '\n' !in MessagePrice(price)
  {
    MessagePriceReadsBack(price);
  }

  lemma ChangeTextOneLine(pct: real)
    ensures '\n' !in ChangeText(pct)
  {
    ChangeTextMeaning(pct);
  }

  /** The price and the change a summary line shows read back as the rounded values. */
  lemma SummaryLineReadsBack(s: SummaryItem)
    ensures var t := SummaryLine(s);
            && t == TrendMark(s.changePct) + " *" + s.symbol + "*: " + MessagePrice(s.price)
                    + " (" + ChangeText(s.changePct) + ")"
            && ReadPrice(MessagePrice(s.price)) == Some(Rounded(s.price, MessageDecimals(s.price)))
            && ReadPercent(ChangeText(s.changePct)) == Some(Rounded(s.changePct, 2))
    ensures TrendMark(s.changePct) == Rising <==> s.changePct > 0.0
    ensures TrendMark(s.changePct) == Falling <==> s.changePct < 0.0
  {
    MessagePriceReadsBack(s.price);
    ChangeTextMeaning(s.changePct);
  }

  /** The symbol of a record, when it has one, has no line break. */
  predicate SymbolOnOneLine<TS>(item: CryptoRecord<TS>) {
    item.symbol.Present? && item.symbol.value.Val? ==> '\n' !in item.symbol.value.value
  }

  /** The summary splits into its two header lines, a blank line, one line per record, a blank
      line and the volume footer. */
  lemma SummaryLayout<TS>(data: seq<CryptoRecord<TS>>, executionDate: DateTime)
    requires Valid(executionDate) && Summary(data, executionDate).Ok?
    requires forall i :: 0 <= i < |data| ==> SymbolOnOneLine(data[i])
    ensures SummaryItems(data).Ok? && VolumeSum(data).Ok?
    ensures |SummaryItems(data).value| == |data|
    ensures SplitLines(Summary(data, executionDate).value) ==
      [Rocket + " *Crypto Price Update*", Calendar + " _" + Stamp(executionDate) + "_", ""]
      + Map(SummaryLine, SummaryItems(data).value) + ["", FooterLine(VolumeSum(data).value)]
  {
    var header := SummaryHeader(Stamp(executionDate));
    var items, total := SummaryItems(data).value, VolumeSum(data).value;
    var lines := Map(SummaryLine, items);
    var footer := FooterLine(total);
    assert Summary(data, executionDate).value == Terminated(header + lines + [""]) + footer;
    SummaryLinesOneLine(data);
    StampOneLine(executionDate);
    SummaryHeaderOneLine(Stamp(executionDate));
    FooterOneLine(total);
    LayoutOf(header, lines, footer);
  }

  /** One-line header and body lines, a blank line and a one-line footer split back into those lines. */
  lemma LayoutOf(header: seq<string>, lines: seq<string>, footer: string)
    requires OneLine(header) && OneLine(lines) && '\n' !in footer
    ensures SplitLines(Terminated(header + lines + [""]) + footer) == header + lines + ["", footer]
  {
    OneLineConcat(header, lines);
    OneLineConcat(header + lines, [""]);
    SplitThen(header + lines + [""], footer);
  }

  lemma SummaryHeaderOneLine(ts: string)
    requires '\n' !in ts
    ensures OneLine(SummaryHeader(ts))
  {
  }

  /** With one-line symbols, every summary line is one line. */
  lemma SummaryLinesOneLine<TS>(data: seq<CryptoRecord<TS>>)
    requires SummaryItems(data).Ok?
    requires forall i :: 0 <= i < |data| ==> SymbolOnOneLine(data[i])
    ensures |SummaryItems(data).value| == |data|
    ensures OneLine(Map(SummaryLine, SummaryItems(data).value))
  {
    var items := SummaryItems(data).value;
    CollectMeaning(SummaryFields, data);
    forall k | 0 <= k < |items| ensures '\n' !in SummaryLine(items[k]) {
      SymbolOneLine(data[k]);
      SummaryLineOneLine(items[k]);
    }
    MapOneLine(SummaryLine, items);
  }

  lemma SymbolOneLine<TS>(item: CryptoRecord<TS>)
    requires SymbolOnOneLine(item) && SummaryFields(item).Ok?
    ensures '\n' !in SummaryFields(item).value.symbol
  {
    SummaryFieldsContent(item);
    UpperProperties(item.symbol.value.value);
  }

  /** Two lines and a blank one, each followed by a line break. */
  lemma TerminatedTwoThenBlank(a: string, b: string)
    ensures Terminated([a, b, ""]) == a + "\n" + (b + "\n\n")
  {
    assert [a, b, ""][1..] == [b, ""] && [b, ""][1..] == [""] && [""][1..] == [];
    assert Terminated([""]) == "\n";
  }

  lemma FooterOneLine(total: real)
    ensures '\n' !in FooterLine(total)
  {
    RenderingIsNumeric(total / 1000000000.0, 2);
    FooterPieces(Fixed(total / 1000000000.0, 2));
  }

  lemma FooterPieces(amount: string)
    requires '\n' !in amount
    ensures '\n' !in MoneyBag + " _Total 24h Volume: $" + amount + "B_"
  {
    var prefix := MoneyBag + " _Total 24h Volume: $";
    assert '\n' !in prefix by {
      forall i | 0 <= i < |prefix| ensures prefix[i] != '\n' { }
    }
    assert '\n' !in "B_";
    NoBreakJoin(prefix, amount);
    NoBreakJoin(prefix + amount, "B_");
  }

  lemma NoBreakJoin(a: string, b: string)
    requires '\n' !in a && '\n' !in b
    ensures '\n' !in a + b
  {
  }

  /** The footer shows the total in billions rounded to 2 decimals: within 5 million of the sum. */
  lemma FooterReadsBack(total: real)
    ensures ParseDecimal(Fixed(total / 1000000000.0, 2)) == Some(Rounded(total / 1000000000.0, 2))
    ensures Abs(Rounded(total / 1000000000.0, 2) * 1000000000.0 - total) <= 5000000.0
  {
    var y := total / 1000000000.0;
    FixedReadsBack(y, 2);
    BillionsRounded(total, y);
  }

  lemma BillionsRounded(total: real, y: real)
    requires y == total / 1000000000.0
    ensures Abs(Rounded(y, 2) * 1000000000.0 - total) <= 5000000.0
  {
    HundredthNear(y);
    BillionsNear(total, y, Rounded(y, 2));
  }

  lemma HundredthNear(y: real)
    ensures Abs(Rounded(y, 2) - y) <= 0.005
  {
    RoundedIsNearest(y, 2);
    Pow10Values();
  }

  lemma BillionsNear(total: real, y: real, v: real)
    requires y == total / 1000000000.0 && Abs(v - y) <= 0.005
    ensures Abs(v * 1000000000.0 - total) <= 5000000.0
  {
    assert v * 1000000000.0 - total == (v - y) * 1000000000.0;
  }

  /** The volume sum adds up batch by batch, and is defined exactly when no volume is `None`. */
  lemma {:induction false} VolumeSumAppend<TS>(a: seq<CryptoRecord<TS>>, b: seq<CryptoRecord<TS>>)
    requires VolumeSum(a).Ok? && VolumeSum(b).Ok?
    ensures VolumeSum(a + b) == Ok(VolumeSum(a).value + VolumeSum(b).value)
  {
    if b != [] {
      var b' := b[..|b| - 1];
      assert (a + b)[..|a + b| - 1] == a + b';
      assert (a + b)[|a + b| - 1] == b[|b| - 1];
      VolumeSumAppend(a, b');
    } else {
      assert a + b == a;
    }
  }

  lemma {:induction false} VolumeSumDefined<TS>(data: seq<CryptoRecord<TS>>)
    ensures VolumeSum(data).Ok? <==> forall i :: 0 <= i < |data| ==> data[i].totalVolume != Present(Null)
    ensures VolumeSum(data).Err? ==> VolumeSum(data).error == TypeError
  {
    if data != [] {
      var init := data[..|data| - 1];
      VolumeSumDefined(init);
      assert forall i :: 0 <= i < |init| ==> init[i] == data[i];
    }
  }

  /** Missing volumes count as zero, so non-negative volumes give a non-negative total. */
  lemma {:induction false} VolumeSumNonnegative<TS>(data: seq<CryptoRecord<TS>>)
    requires forall i :: 0 <= i < |data| ==> data[i].totalVolume.Present? ==>
      data[i].totalVolume.value.Val? && data[i].totalVolume.value.value >= 0.0
    ensures VolumeSum(data).Ok? && VolumeSum(data).value >= 0.0
  {
    if data != [] {
      var init := data[..|data| - 1];
      assert forall i :: 0 <= i < |init| ==> init[i] == data[i];
      VolumeSumNonnegative(init);
    }
  }

  /* ---------------------------------------------------------------- alert message */

  /** `{change_pct:+.2f}`: a sign always, `+` for zero and above. */
  function SignedChange(pct: real): string {
    (if pct < 0.0 then "" else "+") + Fixed(pct, 2)
  }

  lemma SignedChangeMeaning(pct: real)
    ensures var t := SignedChange(pct);
            && ReadPercent(t + "%") == Some(Rounded(pct, 2))
            && (t[0] == '+' <==> pct >= 0.0)
            && (t[0] == '-' <==> pct < 0.0)
            && '\n' !in t
  {
    PercentReadsBack(pct, pct >= 0.0);
    var t := SignedChange(pct);
    assert t + "%" == (if pct >= 0.0 then "+" else "") + Fixed(pct, 2) + "%";
    assert t[0] == (t + "%")[0];
    assert forall i :: 0 <= i < |t| ==> t[i] == (t + "%")[i];
  }

  /** Every alert has a price; the first `None` price raises `TypeError` when it is compared. */
  predicate Priced(alerts: seq<AlertEntry>) {
    forall k :: 0 <= k < |alerts| ==> alerts[k].price.Val?
  }

  /** The three lines of one alert, the last one blank. An alert without a price is never
      rendered (the message raises `TypeError` instead) and has no lines. */
  function AlertBlock(a: AlertEntry): seq<string> {
    match a.price
    case Null => []
    case Val(p) =>
      [a.direction + " *" + a.symbol + "*: " + MessagePrice(p),
       "   Change: *" + SignedChange(a.changePct) + "%*",
       ""]
  }

  /** The lines of all alerts, block after block. */
  function AlertLines(alerts: seq<AlertEntry>): seq<string> {
    Flatten(Map(AlertBlock, alerts))
  }

  /** The header of the alert message: a title, the timestamp, the threshold and a blank line. */
  function AlertHeader(timestamp: string, threshold: real): seq<string> {
    [WarningSign + " *CRYPTO ALERT!*", Calendar + " _" + timestamp + "_",
     Target + " _Threshold: ±" + FloatText(threshold) + "%_", ""]
  }

  const ClosingLine := Bulb + " _Check the market for opportunities!_"

  /** The alert text for a report at `executionDate`, or `TypeError` when an alert has no price. */
  function AlertMessage(report: AlertReport, executionDate: DateTime): Result<string>
    requires Valid(executionDate)
  {
    if Priced(report.alerts) then
      Ok(Terminated(AlertHeader(Stamp(executionDate), report.threshold) + AlertLines(report.alerts)) + ClosingLine)
    else Err(TypeError)
  }

  /** `format_alert_message`. */
  method FormatAlertMessage(alertData: AlertReport, executionDate: DateTime) returns (r: Result<string>)
    requires Valid(executionDate)
    ensures r == AlertMessage(alertData, executionDate)
  {
    var timestamp := Stamp(executionDate);
    var threshold := alertData.threshold;
    var alerts := alertData.alerts;
    var message := AlertHeaderText(timestamp, threshold);
    ghost var header := AlertHeader(timestamp, threshold);
    var priced;
    priced, message := AppendAlerts(header, message, alerts);
    if !priced {
      return Err(TypeError);
    }
    message := message + ClosingLine;
    r := Ok(message);
  }

  /** The loop of `format_alert_message` over the alerts: appends each alert's lines to the
      message, and stops with `false` at the first alert without a price. */
  method AppendAlerts(ghost header: seq<string>, start: string, alerts: seq<AlertEntry>)
    returns (priced: bool, message: string)
    requires start == Terminated(header)
    ensures priced == Priced(alerts)
    ensures priced ==> message == Terminated(header + AlertLines(alerts))
  {
    message := start;
    assert alerts[..0] == [] && header + AlertLines(alerts[..0]) == header;
    var i := 0;
    while i < |alerts|
      invariant 0 <= i <= |alerts|
      invariant Priced(alerts[..i])
      invariant message == Terminated(header + AlertLines(alerts[..i]))
    {
      var alert := alerts[i];
      if alert.price.Null? {
        assert !Priced(alerts) by { assert !alerts[i].price.Val?; }
        return false, message;
      }
      PricedStep(alerts, i);
      FlattenTerminatedStep(AlertBlock, header, alerts, i);
      message := AppendAlert(message, alert);
      i := i + 1;
    }
    assert alerts[..i] == alerts;
    priced := true;
  }

  /** The title, timestamp and threshold lines of the alert message, then a blank line. */
  method AlertHeaderText(timestamp: string, threshold: real) returns (message: string)
    ensures message == Terminated(AlertHeader(timestamp, threshold))
  {
    var title := WarningSign + " *CRYPTO ALERT!*";
    var dateLine := Calendar + " _" + timestamp + "_";
    var thresholdLine := Target + " _Threshold: ±" + FloatText(threshold) + "%_";
    message := title + "\n";
    message := message + (dateLine + "\n");
    message := message + (thresholdLine + "\n\n");
    TerminatedThreeThenBlank(title, dateLine, thresholdLine);
  }

  /** One pass of the loop: the alert's direction, symbol and price, its signed change, and a
      blank line are appended. */
  method AppendAlert(message: string, alert: AlertEntry) returns (m: string)
    requires alert.price.Val?
    ensures m == message + Terminated(AlertBlock(alert))
  {
    var priceStr := MessagePrice(alert.price.value);
    var first := alert.direction + " *" + alert.symbol + "*: " + priceStr;
    var second := "   Change: *" + SignedChange(alert.changePct) + "%*";
    m := message + (first + "\n");
    m := m + (second + "\n\n");
    assert AlertBlock(alert) == [first, second, ""];
    TerminatedTwoThenBlank(first, second);
    AppendAssoc(message, first + "\n", second + "\n\n");
  }

  lemma PricedStep(alerts: seq<AlertEntry>, i: nat)
    requires i < |alerts| && Priced(alerts[..i]) && alerts[i].price.Val?
    ensures Priced(alerts[..i + 1])
  {
    assert forall k :: 0 <= k < i ==> alerts[..i + 1][k] == alerts[..i][k];
  }

  /** Three lines and a blank one, each followed by a line break. */
  lemma TerminatedThreeThenBlank(a: string, b: string, c: string)
    ensures Terminated([a, b, c, ""]) == a + "\n" + (b + "\n") + (c + "\n\n")
  {
    assert [a, b, c, ""][1..] == [b, c, ""];
    TerminatedTwoThenBlank(b, c);
  }

  /** The message is built exactly when every alert has a price, and `TypeError` is the only
      exception; it then holds three lines per alert, alert `k`'s block at lines `3k` to `3k + 2`:
      the direction, symbol and price, then the signed change, then a blank line. */
  lemma AlertLinesMeaning(report: AlertReport, executionDate: DateTime)
    requires Valid(executionDate)
    ensures AlertMessage(report, executionDate).Ok? <==> Priced(report.alerts)
    ensures AlertMessage(report, executionDate).Err? ==> AlertMessage(report, executionDate).error == TypeError
    ensures Priced(report.alerts) ==>
      (&& |AlertLines(report.alerts)| == 3 * |report.alerts|
       && forall k :: 0 <= k < |report.alerts| ==>
            AlertLines(report.alerts)[3 * k..3 * k + 3] == AlertBlock(report.alerts[k]))
  {
    var alerts := report.alerts;
    if Priced(alerts) {
      MapAt(AlertBlock, alerts);
      FlattenTriples(Map(AlertBlock, alerts));
    }
  }

  /** An alert whose symbol and direction have no line break. */
  predicate EntryOnOneLine(a: AlertEntry) {
    '\n' !in a.symbol && '\n' !in a.direction
  }

  /** The alert message splits into its three header lines, a blank line, three lines per alert and
      the closing line. */
  lemma AlertLayout(report: AlertReport, executionDate: DateTime)
    requires Valid(executionDate) && AlertMessage(report, executionDate).Ok?
    requires forall k :: 0 <= k < |report.alerts| ==> EntryOnOneLine(report.alerts[k])
    ensures Priced(report.alerts)
    ensures SplitLines(AlertMessage(report, executionDate).value) ==
      [WarningSign + " *CRYPTO ALERT!*", Calendar + " _" + Stamp(executionDate) + "_",
       Target + " _Threshold: ±" + FloatText(report.threshold) + "%_", ""]
      + AlertLines(report.alerts) + [ClosingLine]
  {
    var header := AlertHeader(Stamp(executionDate), report.threshold);
    var lines := AlertLines(report.alerts);
    assert Priced(report.alerts);
    assert OneLine(header) by {
      StampOneLine(executionDate);
      FloatTextOneLine(report.threshold);
      AlertHeaderOneLine(Stamp(executionDate), FloatText(report.threshold));
    }
    assert OneLine(lines) by {
      AlertLinesOneLine(report.alerts);
    }
    ClosingOneLine();
    SplitThenAfter(header, lines, ClosingLine);
  }

  lemma ClosingOneLine()
    ensures '\n' !in ClosingLine
  {
    var tail := " _Check the market for opportunities!_";
    assert '\n' !in tail by {
      forall i | 0 <= i < |tail| ensures tail[i] != '\n' { }
    }
    assert ClosingLine == Bulb + tail;
  }

  lemma AlertHeaderOneLine(ts: string, th: string)
    requires '\n' !in ts && '\n' !in th
    ensures OneLine([WarningSign + " *CRYPTO ALERT!*", Calendar + " _" + ts + "_",
                     Target + " _Threshold: ±" + th + "%_", ""])
  {
  }

  lemma StampOneLine(dt: DateTime)
    requires Valid(dt)
    ensures '\n' !in Stamp(dt)
  {
    StampReadsBack(dt);
  }

  lemma FloatTextOneLine(x: real)
    ensures '\n' !in FloatText(x)
  {
    RenderingIsNumeric(x, MinDecimals(x));
  }

  lemma AlertLinesOneLine(alerts: seq<AlertEntry>)
    requires Priced(alerts)
    requires forall k :: 0 <= k < |alerts| ==> EntryOnOneLine(alerts[k])
    ensures OneLine(AlertLines(alerts))
  {
    var blocks := Map(AlertBlock, alerts);
    MapAt(AlertBlock, alerts);
    forall k | 0 <= k < |alerts| ensures OneLine(blocks[k]) {
      BlockOneLine(alerts[k]);
    }
    FlattenOneLine(blocks);
  }

  lemma BlockOneLine(a: AlertEntry)
    requires a.price.Val? && EntryOnOneLine(a)
    ensures |AlertBlock(a)| == 3 && OneLine(AlertBlock(a))
  {
    MessagePriceOneLine(a.price.value);
    SignedChangeOneLine(a.changePct);
    BlockPieces(a.direction, a.symbol, MessagePrice(a.price.value), SignedChange(a.changePct));
  }

  lemma SignedChangeOneLine(pct: real)
    ensures '\n' !in SignedChange(pct)
  {
    SignedChangeMeaning(pct);
  }

  lemma BlockPieces(dir: string, sym: string, price: string, change: string)
    requires '\n' !in dir && '\n' !in sym && '\n' !in price && '\n' !in change
    ensures '\n' !in dir + " *" + sym + "*: " + price && '\n' !in "   Change: *" + change + "%*" && '\n' !in ""
  {
  }

  /** The alerts that the analysis step reports carry the direction marks, which are one line. */
  lemma {:induction false} CollectedAlertsOnOneLine<TS>(data: seq<CryptoRecord<TS>>, threshold: real)
    requires CollectAlerts(data, threshold).Ok?
    requires forall i :: 0 <= i < |data| ==> SymbolOnOneLine(data[i])
    ensures forall k :: 0 <= k < |CollectAlerts(data, threshold).value| ==>
      EntryOnOneLine(CollectAlerts(data, threshold).value[k])
  {
    if data != [] {
      var init := data[..|data| - 1];
      var item := data[|data| - 1];
      assert forall i :: 0 <= i < |init| ==> init[i] == data[i];
      CollectedAlertsOnOneLine(init, threshold);
      if item.symbol.Present? && item.symbol.value.Val? {
        UpperProperties(item.symbol.value.value);
      }
    }
  }

  /** With the pipeline's threshold of 5.0 the header shows `±5.0%`. */
  lemma DefaultThresholdText()
    ensures FloatText(5.0) == "5.0"
  {
    FiveText(5.0);
  }

  lemma FiveText(x: real)
    requires x == 5.0
    ensures FloatText(x) == "5.0"
  {
    assert RoundHalfEven(x, 1) == 50 by {
      assert Pow10(1) == 10;
      assert x * (Pow10(1) as real) == 50.0;
      assert RoundScaled(50.0) == 50;
    }
    assert Rounded(x, 1) == x by { assert Pow10(1) == 10; }
    assert MinDecimals(x) == 1;
    assert Digits(Quotient(50, Pow10(1))) == "5" by { assert Pow10(1) == 10; }
    assert ZeroPad(50 % Pow10(1), 1) == "0" by { assert Pow10(1) == 10; assert Digits(0) == "0"; }
    assert Fixed(x, 1) == "5" + "." + "0";
  }
}
