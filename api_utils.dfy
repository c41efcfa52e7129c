/** The batch stages of the pipeline: validation of the fetched records, their transformation into
    records with parsed timestamps, and the threshold analysis that derives price alerts. */
module ApiUtils {
  import opened Common
  import opened Text
  import opened DateTimes
  import opened Records

  type RawRecord = CryptoRecord<string>
  type Record = CryptoRecord<DateTime>

  /* ---------------------------------------------------------------- validation */

  /** The names of the required keys missing from `item`, in the order they are checked. */
  function MissingFields<TS>(item: CryptoRecord<TS>): (m: seq<string>)
    ensures m == [] <==> item.id.Present? && item.symbol.Present? && item.currentPrice.Present?
                         && item.lastUpdated.Present?
    ensures forall k :: 0 <= k < |m| ==> m[k] in ["id", "symbol", "current_price", "last_updated"]
  {
    (if item.id.Absent? then ["id"] else [])
    + (if item.symbol.Absent? then ["symbol"] else [])
    + (if item.currentPrice.Absent? then ["current_price"] else [])
    + (if item.lastUpdated.Absent? then ["last_updated"] else [])
  }

  /** A record passes validation: all four required keys are there and the price is a number above 0. */
  predicate RecordValid<TS>(item: CryptoRecord<TS>) {
    && item.id.Present? && item.symbol.Present? && item.currentPrice.Present? && item.lastUpdated.Present?
    && item.currentPrice.value.Val? && item.currentPrice.value.value > 0.0
  }

  /** `validate_crypto_data`: scans the batch in order and stops at the first record that fails. */
  method ValidateCryptoData(data: seq<RawRecord>) returns (valid: bool)
    ensures valid <==> |data| > 0 && forall i :: 0 <= i < |data| ==> RecordValid(data[i])
  {
    if |data| == 0 {
      return false;
    }
    var i := 0;
    while i < |data|
      invariant 0 <= i <= |data|
      invariant forall j :: 0 <= j < i ==> RecordValid(data[j])
    {
      var item := data[i];
      if MissingFields(item) != [] {
        return false;
      }
      if item.currentPrice.value.Null? || item.currentPrice.value.value <= 0.0 {
        return false;
      }
      i := i + 1;
    }
    return true;
  }

  /* ---------------------------------------------------------------- transformation */

  /** `datetime.fromisoformat(text.replace('Z', '+00:00'))`; `None` is the `ValueError`. */
  function ParseTimestamp(text: string): Option<DateTime> {
    ParseIso(ReplaceAll(text, 'Z', "+00:00"))
  }

  /** One record of `transform_crypto_data`: the dictionary literal is evaluated key by key, so the
      first missing required key is the one reported. */
  function TransformRecord(item: RawRecord): (r: Result<Record>)
    ensures r.Ok? ==> r.value.lastUpdated.Present? && r.value.lastUpdated.value.Val?
                      && Valid(r.value.lastUpdated.value.value)
    ensures r.Ok? ==> item.lastUpdated.Present? && item.lastUpdated.value.Val?
                      && ParseTimestamp(item.lastUpdated.value.value)
                           == Some(r.value.lastUpdated.value.value)
  {
    if item.id.Absent? then Err(KeyError("id"))
    else if item.symbol.Absent? then Err(KeyError("symbol"))
    else if item.currentPrice.Absent? then Err(KeyError("current_price"))
    else if item.lastUpdated.Absent? then Err(KeyError("last_updated"))
    else match item.lastUpdated.value
      case Null => Err(AttributeError)
      case Val(text) =>
        match ParseTimestamp(text)
        case None => Err(ValueError)
        case Some(t) =>
          Ok(CryptoRecord(item.id, item.symbol, item.currentPrice,
                          Present(Get(item.marketCap, 0.0)), Present(Get(item.totalVolume, 0.0)),
                          Present(Get(item.priceChange24h, 0.0)),
                          Present(Get(item.priceChangePercentage24h, 0.0)),
                          Present(Val(t))))
  }

  /** `transform_crypto_data`: the records are rewritten one by one and appended in order; the first
      record that raises ends the call with its exception. */
  method TransformCryptoData(data: seq<RawRecord>) returns (r: Result<seq<Record>>)
    ensures r.Ok? <==> forall i :: 0 <= i < |data| ==> TransformRecord(data[i]).Ok?
    ensures r.Ok? ==> |r.value| == |data|
                      && forall i :: 0 <= i < |data| ==> TransformRecord(data[i]) == Ok(r.value[i])
    ensures r.Err? ==> exists k :: 0 <= k < |data| && TransformRecord(data[k]) == Err(r.error)
                                   && forall i :: 0 <= i < k ==> TransformRecord(data[i]).Ok?
  {
    var transformed: seq<Record> := [];
    var i := 0;
    while i < |data|
      invariant 0 <= i <= |data| && |transformed| == i
      invariant forall j :: 0 <= j < i ==> TransformRecord(data[j]) == Ok(transformed[j])
    {
      var item := TransformRecord(data[i]);
      if item.Err? {
        return Err(item.error);
      }
      transformed := transformed + [item.value];
      i := i + 1;
    }
    return Ok(transformed);
  }

  /** `id`, `symbol` and `current_price` are copied as they are; in particular the symbol keeps its case. */
  lemma TransformCopies(item: RawRecord)
    requires TransformRecord(item).Ok?
    ensures var t := TransformRecord(item).value;
            t.id == item.id && t.symbol == item.symbol && t.currentPrice == item.currentPrice
  {
  }

  /** Value of an optional numeric key after the transform: a missing key becomes 0, a key present
      with `None` stays `None`, any other value is kept. */
  predicate Defaulted(before: Field<real>, after: Field<real>) {
    && (before.Absent? ==> after == Present(Val(0.0)))
    && (before.Present? ==> after == before)
  }

  lemma TransformDefaults(item: RawRecord)
    requires TransformRecord(item).Ok?
    ensures var t := TransformRecord(item).value;
            && Defaulted(item.marketCap, t.marketCap)
            && Defaulted(item.totalVolume, t.totalVolume)
            && Defaulted(item.priceChange24h, t.priceChange24h)
            && Defaulted(item.priceChangePercentage24h, t.priceChangePercentage24h)
    ensures var t := TransformRecord(item).value;
            t.marketCap.Present? && t.totalVolume.Present? && t.priceChange24h.Present?
            && t.priceChangePercentage24h.Present? && t.lastUpdated.Present?
  {
  }

  /** When, and with which exception, one record fails to transform. */
  lemma TransformErrors(item: RawRecord)
    ensures TransformRecord(item) == Err(KeyError("id")) <==> item.id.Absent?
    ensures TransformRecord(item).Err? && TransformRecord(item).error.KeyError? <==> MissingFields(item) != []
    ensures TransformRecord(item).Err? && TransformRecord(item).error.KeyError? ==>
              TransformRecord(item).error.key == MissingFields(item)[0]
    ensures TransformRecord(item) == Err(AttributeError) <==>
              MissingFields(item) == [] && item.lastUpdated.value.Null?
    ensures TransformRecord(item) == Err(ValueError) <==>
              MissingFields(item) == [] && item.lastUpdated.value.Val?
              && ParseTimestamp(item.lastUpdated.value.value).None?
  {
  }

  /** A record that passed validation never fails with `KeyError`, and its price stays positive. */
  lemma ValidatedTransform(item: RawRecord)
    requires RecordValid(item)
    ensures TransformRecord(item).Err? ==> TransformRecord(item).error in {AttributeError, ValueError}
    ensures TransformRecord(item).Ok? ==> var p := TransformRecord(item).value.currentPrice;
                                          p.Present? && p.value.Val? && p.value.value > 0.0
  {
  }

  /** A trailing `Z` reads as the offset `+00:00`: both spellings give the same timestamp. */
  lemma ZuluIsUtc(text: string)
    ensures ParseTimestamp(text + "Z") == ParseTimestamp(text + "+00:00")
  {
    ReplaceAllAppend(text, "Z", 'Z', "+00:00");
    ReplaceAllAppend(text, "+00:00", 'Z', "+00:00");
    ReplaceAllAbsent("+00:00", 'Z', "+00:00");
    assert ReplaceAll("Z", 'Z', "+00:00") == "+00:00";
  }

  /** The API's `2024-12-01T00:00:00Z` becomes midnight of 1 December 2024 at offset 0. */
  lemma ZuluExample()
    ensures ParseTimestamp("2024-12-01T00:00:00Z") == Some(DateTime(2024, 12, 1, 0, 0, 0, 0, Some(0)))
  {
    var text := "2024-12-01T00:00:00";
    MidnightWithOffset(text);
    ZuluParse(text, DateTime(2024, 12, 1, 0, 0, 0, 0, Some(0)));
    assert text + "Z" == "2024-12-01T00:00:00Z";
  }

  /** A record with the four required keys and the API's timestamp `2024-12-01T00:00:00Z`
      transforms, and stores midnight of 1 December 2024 at offset 0. */
  lemma TransformZulu(item: RawRecord)
    requires MissingFields(item) == [] && item.lastUpdated == Present(Val("2024-12-01T00:00:00Z"))
    ensures TransformRecord(item).Ok?
    ensures TransformRecord(item).value.lastUpdated
              == Present(Val(DateTime(2024, 12, 1, 0, 0, 0, 0, Some(0))))
  {
    var dt := DateTime(2024, 12, 1, 0, 0, 0, 0, Some(0));
    ZuluExample();
    TransformParsed(item, dt);
  }

  /** A record with the four required keys and a timestamp text that parses transforms, and stores
      the parsed timestamp. */
  lemma TransformParsed(item: RawRecord, dt: DateTime)
    requires MissingFields(item) == [] && item.lastUpdated.Present? && item.lastUpdated.value.Val?
    requires ParseTimestamp(item.lastUpdated.value.value) == Some(dt)
    ensures TransformRecord(item).Ok? && TransformRecord(item).value.lastUpdated == Present(Val(dt))
  {
    TransformErrors(item);
  }

  lemma MidnightWithOffset(text: string)
    requires text == "2024-12-01T00:00:00"
    ensures 'Z' !in text
    ensures ParseIso(text + "+00:00") == Some(DateTime(2024, 12, 1, 0, 0, 0, 0, Some(0)))
  {
    MidnightExample();
    NoZulu(text);
    assert text + "+00:00" == "2024-12-01T00:00:00+00:00";
  }

  lemma NoZulu(text: string)
    requires text == "2024-12-01T00:00:00"
    ensures 'Z' !in text
  {
  }

  lemma ZuluParse(text: string, dt: DateTime)
    requires 'Z' !in text && ParseIso(text + "+00:00") == Some(dt)
    ensures ParseTimestamp(text + "Z") == Some(dt)
  {
    ZuluIsUtc(text);
    ReplaceAllAbsent(text + "+00:00", 'Z', "+00:00");
  }

  /* ---------------------------------------------------------------- alerts */

  const Rising := "\U{1F4C8}"
  const Falling := "\U{1F4C9}"

  datatype AlertEntry = AlertEntry(coinId: Nullable<string>, symbol: string, price: Nullable<real>,
                                   changePct: real, direction: string)

  datatype AlertReport = AlertReport(hasAlert: bool, alerts: seq<AlertEntry>, threshold: real)

  /** `item.get('price_change_percentage_24h', 0)`. */
  function Change<TS>(item: CryptoRecord<TS>): Nullable<real> {
    Get(item.priceChangePercentage24h, 0.0)
  }

  /** The record's change is a number whose magnitude reaches the threshold. */
  predicate Qualifies<TS>(item: CryptoRecord<TS>, threshold: real) {
    Change(item).Val? && Abs(Change(item).value) >= threshold
  }

  /** The alert dictionary for a qualifying record, built in the order of its keys. */
  function MakeEntry<TS>(item: CryptoRecord<TS>, pct: real): (r: Result<AlertEntry>)
    ensures r.Ok? ==> r.value.changePct == pct
  {
    match Index(item.id, "id")
    case Err(e) => Err(e)
    case Ok(id) =>
      match UpperSymbol(item.symbol)
      case Err(e) => Err(e)
      case Ok(sym) =>
        match Index(item.currentPrice, "current_price")
        case Err(e) => Err(e)
        case Ok(price) => Ok(AlertEntry(id, sym, price, pct, if pct > 0.0 then Rising else Falling))
  }

  /** One iteration of the scan: `abs(None)` raises `TypeError`, a small change adds nothing. */
  function AlertFor<TS>(item: CryptoRecord<TS>, threshold: real): Result<Option<AlertEntry>> {
    match Change(item)
    case Null => Err(TypeError)
    case Val(pct) =>
      if Abs(pct) >= threshold then
        match MakeEntry(item, pct)
        case Err(e) => Err(e)
        case Ok(a) => Ok(Some(a))
      else Ok(None)
  }

  /** The `alerts` list after scanning `data`, or the first exception raised while scanning. */
  function CollectAlerts<TS>(data: seq<CryptoRecord<TS>>, threshold: real): Result<seq<AlertEntry>> {
    if data == [] then Ok([])
    else match CollectAlerts(data[..|data| - 1], threshold)
      case Err(e) => Err(e)
      case Ok(prev) =>
        match AlertFor(data[|data| - 1], threshold)
        case Err(e) => Err(e)
        case Ok(None) => Ok(prev)
        case Ok(Some(a)) => Ok(prev + [a])
  }

  function Mag(a: AlertEntry): real {
    Abs(a.changePct)
  }

  predicate SortedByMagnitude(s: seq<AlertEntry>) {
    forall i, j :: 0 <= i < j < |s| ==> Mag(s[i]) >= Mag(s[j])
  }

  /** Places `x` after every element whose magnitude is at least its own. */
  function Insert(x: AlertEntry, s: seq<AlertEntry>): seq<AlertEntry> {
    if s == [] then [x]
    else if Mag(s[0]) < Mag(x) then [x] + s
    else [s[0]] + Insert(x, s[1..])
  }

  /** `alerts.sort(key=lambda x: abs(x['change_pct']), reverse=True)`: Python's sort is stable, and with
      `reverse=True` equal keys still keep their original order. */
  function SortByMagnitude(s: seq<AlertEntry>): seq<AlertEntry> {
    if s == [] then [] else Insert(s[|s| - 1], SortByMagnitude(s[..|s| - 1]))
  }

  /** The result of `analyze_for_alerts` for an alert list that was collected without exception. */
  function Report(alerts: seq<AlertEntry>, threshold: real): Option<AlertReport> {
    if alerts == [] then None else Some(AlertReport(true, SortByMagnitude(alerts), threshold))
  }

  /** `analyze_for_alerts`: collect, return `None` when nothing qualified, otherwise sort and report. */
  method AnalyzeForAlerts<TS>(data: seq<CryptoRecord<TS>>, threshold: real) returns (r: Result<Option<AlertReport>>)
    ensures CollectAlerts(data, threshold).Err? ==> r == Err(CollectAlerts(data, threshold).error)
    ensures CollectAlerts(data, threshold).Ok? ==> r == Ok(Report(CollectAlerts(data, threshold).value, threshold))
  {
    var alerts: seq<AlertEntry> := [];
    var i := 0;
    while i < |data|
      invariant 0 <= i <= |data|
      invariant CollectAlerts(data[..i], threshold) == Ok(alerts)
    {
      assert data[..i + 1][..i] == data[..i];
      var step := AlertFor(data[i], threshold);
      if step.Err? {
        assert CollectAlerts(data[..i + 1], threshold) == Err(step.error);
        CollectErrorPersists(data[..i + 1], data[i + 1..], threshold);
        assert data[..i + 1] + data[i + 1..] == data;
        return Err(step.error);
      }
      if step.value.Some? {
        alerts := alerts + [step.value.value];
      }
      i := i + 1;
    }
    assert data[..|data|] == data;
    if alerts == [] {
      return Ok(None);
    }
    var sorted := SortByMagnitude(alerts);
    return Ok(Some(AlertReport(true, sorted, threshold)));
  }

  lemma {:induction false} CollectErrorPersists<TS>(p: seq<CryptoRecord<TS>>, q: seq<CryptoRecord<TS>>, threshold: real)
    requires CollectAlerts(p, threshold).Err?
    ensures CollectAlerts(p + q, threshold) == CollectAlerts(p, threshold)
    decreases |q|
  {
    if q != [] {
      var q' := q[..|q| - 1];
      CollectErrorPersists(p, q', threshold);
      assert (p + q)[..|p + q| - 1] == p + q';
    } else {
      assert p + q == p;
    }
  }

  /** The positions of the qualifying records, in increasing order. */
  function QualifyingIndices<TS>(data: seq<CryptoRecord<TS>>, threshold: real): seq<nat> {
    if data == [] then []
    else QualifyingIndices(data[..|data| - 1], threshold)
         + (if Qualifies(data[|data| - 1], threshold) then [|data| - 1] else [])
  }

  /** `QualifyingIndices` lists exactly the qualifying positions, each once, in increasing order. */
  lemma {:induction false} QualifyingIndicesCorrect<TS>(data: seq<CryptoRecord<TS>>, threshold: real)
    ensures var q := QualifyingIndices(data, threshold);
            && (forall j :: 0 <= j < |q| ==> q[j] < |data| && Qualifies(data[q[j]], threshold))
            && (forall j, k :: 0 <= j < k < |q| ==> q[j] < q[k])
            && (forall i :: 0 <= i < |data| && Qualifies(data[i], threshold) ==> i in q)
  {
    if data != [] {
      var p := data[..|data| - 1];
      QualifyingIndicesCorrect(p, threshold);
      var q := QualifyingIndices(data, threshold);
      var qp := QualifyingIndices(p, threshold);
      assert forall j :: 0 <= j < |qp| ==> q[j] == qp[j];
      forall i | 0 <= i < |data| && Qualifies(data[i], threshold) ensures i in q {
        if i < |data| - 1 {
          assert p[i] == data[i];
          assert i in qp;
        } else {
          assert q[|q| - 1] == i;
        }
      }
    }
  }

  /** The scan succeeds exactly when no record raises; then the alerts are the entries of the
      qualifying records, one each, in input order. */
  lemma {:induction false} CollectAlertsMeaning<TS>(data: seq<CryptoRecord<TS>>, threshold: real)
    ensures CollectAlerts(data, threshold).Ok? <==> forall i :: 0 <= i < |data| ==> AlertFor(data[i], threshold).Ok?
    ensures CollectAlerts(data, threshold).Ok? ==>
              var alerts, q := CollectAlerts(data, threshold).value, QualifyingIndices(data, threshold);
              && |alerts| == |q|
              && (forall j :: 0 <= j < |q| ==>
                    q[j] < |data| && MakeEntry(data[q[j]], Change(data[q[j]]).value) == Ok(alerts[j]))
  {
    CollectAlertsOk(data, threshold);
    if data != [] && CollectAlerts(data, threshold).Ok? {
      var p, x := data[..|data| - 1], data[|data| - 1];
      CollectStep(data, threshold);
      CollectAlertsMeaning(p, threshold);
      QualifyingIndicesCorrect(p, threshold);
      var alerts, q := CollectAlerts(data, threshold).value, QualifyingIndices(data, threshold);
      var prev, qp := CollectAlerts(p, threshold).value, QualifyingIndices(p, threshold);
      forall j | 0 <= j < |q|
        ensures q[j] < |data| && MakeEntry(data[q[j]], Change(data[q[j]]).value) == Ok(alerts[j])
      {
        if j < |qp| {
          assert q[j] == qp[j] && alerts[j] == prev[j] && data[qp[j]] == p[qp[j]];
        } else {
          assert q[j] == |data| - 1 && alerts[j] == MakeEntry(x, Change(x).value).value;
        }
      }
    }
  }

  /** One more record: the scan of `data` extends the scan of all records but the last by the last
      one's alert, when it qualifies. */
  lemma CollectStep<TS>(data: seq<CryptoRecord<TS>>, threshold: real)
    requires data != [] && CollectAlerts(data, threshold).Ok?
    ensures var p, x := data[..|data| - 1], data[|data| - 1];
            && CollectAlerts(p, threshold).Ok?
            && (Qualifies(x, threshold) ==> MakeEntry(x, Change(x).value).Ok?)
            && CollectAlerts(data, threshold).value
               == CollectAlerts(p, threshold).value
                  + (if Qualifies(x, threshold) then [MakeEntry(x, Change(x).value).value] else [])
            && QualifyingIndices(data, threshold)
               == QualifyingIndices(p, threshold) + (if Qualifies(x, threshold) then [|data| - 1] else [])
  {
  }

  /** The scan fails exactly when some record's check fails. */
  lemma {:induction false} CollectAlertsOk<TS>(data: seq<CryptoRecord<TS>>, threshold: real)
    ensures CollectAlerts(data, threshold).Ok? <==> forall i :: 0 <= i < |data| ==> AlertFor(data[i], threshold).Ok?
  {
    if data != [] {
      var p := data[..|data| - 1];
      CollectAlertsOk(p, threshold);
      assert forall i :: 0 <= i < |p| ==> p[i] == data[i];
    }
  }

  /** `analyze_for_alerts` returns `None` exactly when no record reaches the threshold; otherwise the
      report says so, carries the threshold and lists every qualifying record once. */
  lemma AnalysisOutcome<TS>(data: seq<CryptoRecord<TS>>, threshold: real)
    requires CollectAlerts(data, threshold).Ok?
    ensures var report := Report(CollectAlerts(data, threshold).value, threshold);
            && (report.None? <==> forall i :: 0 <= i < |data| ==> !Qualifies(data[i], threshold))
            && (report.Some? ==> report.value.hasAlert && report.value.threshold == threshold
                                 && |report.value.alerts| == |QualifyingIndices(data, threshold)|)
  {
    CollectAlertsMeaning(data, threshold);
    QualifyingIndicesCorrect(data, threshold);
    var alerts := CollectAlerts(data, threshold).value;
    var q := QualifyingIndices(data, threshold);
    if q != [] {
      assert Qualifies(data[q[0]], threshold);
    }
    if alerts != [] {
      SortPermutes(alerts);
      assert |SortByMagnitude(alerts)| == |multiset(SortByMagnitude(alerts))|;
    }
  }

  /** Every alert of a report shows the record's upper-cased symbol, its change, and 📈 exactly when the
      change is positive. */
  lemma EntryFields<TS>(item: CryptoRecord<TS>, pct: real)
    requires MakeEntry(item, pct).Ok?
    ensures var a := MakeEntry(item, pct).value;
            && item.id.Present? && a.coinId == item.id.value
            && item.symbol.Present? && item.symbol.value.Val? && a.symbol == Upper(item.symbol.value.value)
            && item.currentPrice.Present? && a.price == item.currentPrice.value
            && a.changePct == pct
            && (a.direction == Rising <==> pct > 0.0)
            && (a.direction == Falling <==> pct <= 0.0)
  {
  }

  /* ---------------------------------------------------------------- the sort */

  lemma {:induction false} InsertPermutes(x: AlertEntry, s: seq<AlertEntry>)
    ensures multiset(Insert(x, s)) == multiset(s) + multiset{x}
    ensures |Insert(x, s)| == |s| + 1
  {
    if s != [] && Mag(s[0]) >= Mag(x) {
      InsertPermutes(x, s[1..]);
      assert s == [s[0]] + s[1..];
    }
  }

  lemma {:induction false} InsertSorted(x: AlertEntry, s: seq<AlertEntry>)
    requires SortedByMagnitude(s)
    ensures SortedByMagnitude(Insert(x, s))
    ensures Insert(x, s)[0] == x || (s != [] && Insert(x, s)[0] == s[0])
  {
    if s != [] && Mag(s[0]) >= Mag(x) {
      var t := s[1..];
      SortedTail(s);
      InsertSorted(x, t);
      InsertBounded(x, t, Mag(s[0]));
      var r := Insert(x, s);
      var it := Insert(x, t);
      assert r == [s[0]] + it;
      forall i, j | 0 <= i < j < |r| ensures Mag(r[i]) >= Mag(r[j]) {
        assert r[j] == it[j - 1];
        if i > 0 {
          assert r[i] == it[i - 1];
        }
      }
    }
  }

  /** The tail of a sorted list is sorted, and bounded by the head. */
  lemma SortedTail(s: seq<AlertEntry>)
    requires s != [] && SortedByMagnitude(s)
    ensures SortedByMagnitude(s[1..])
    ensures forall i :: 0 <= i < |s[1..]| ==> Mag(s[1..][i]) <= Mag(s[0])
  {
    var t := s[1..];
    forall i, j | 0 <= i < j < |t| ensures Mag(t[i]) >= Mag(t[j]) { assert t[i] == s[i + 1] && t[j] == s[j + 1]; }
    forall i | 0 <= i < |t| ensures Mag(t[i]) <= Mag(s[0]) { assert t[i] == s[i + 1]; }
  }

  /** Inserting adds no element above a bound that `x` and all of `s` respect. */
  lemma {:induction false} InsertBounded(x: AlertEntry, s: seq<AlertEntry>, m: real)
    requires Mag(x) <= m && forall i :: 0 <= i < |s| ==> Mag(s[i]) <= m
    ensures forall i :: 0 <= i < |Insert(x, s)| ==> Mag(Insert(x, s)[i]) <= m
  {
    if s != [] && Mag(s[0]) >= Mag(x) {
      var t := s[1..];
      assert forall i :: 0 <= i < |t| ==> t[i] == s[i + 1];
      InsertBounded(x, t, m);
      assert Insert(x, s) == [s[0]] + Insert(x, t);
    } else if s != [] {
      assert Insert(x, s) == [x] + s;
    }
  }

  lemma {:induction false} SortPermutes(s: seq<AlertEntry>)
    ensures multiset(SortByMagnitude(s)) == multiset(s)
  {
    if s != [] {
      var p, x := s[..|s| - 1], s[|s| - 1];
      calc {
        multiset(SortByMagnitude(s));
        multiset(Insert(x, SortByMagnitude(p)));
        { InsertPermutes(x, SortByMagnitude(p)); }
        multiset(SortByMagnitude(p)) + multiset{x};
        { SortPermutes(p); }
        multiset(p) + multiset{x};
        { assert s == p + [x]; }
        multiset(s);
      }
    }
  }

  lemma {:induction false} SortSorted(s: seq<AlertEntry>)
    ensures SortedByMagnitude(SortByMagnitude(s))
  {
    if s != [] {
      var p := s[..|s| - 1];
      SortSorted(p);
      InsertSorted(s[|s| - 1], SortByMagnitude(p));
    }
  }

  /** The elements of `s` with magnitude `k`, in their order in `s`. */
  function WithMagnitude(s: seq<AlertEntry>, k: real): seq<AlertEntry> {
    if s == [] then [] else (if Mag(s[0]) == k then [s[0]] else []) + WithMagnitude(s[1..], k)
  }

  lemma {:induction false} WithMagnitudeAppend(a: seq<AlertEntry>, b: seq<AlertEntry>, k: real)
    ensures WithMagnitude(a + b, k) == WithMagnitude(a, k) + WithMagnitude(b, k)
  {
    if a != [] {
      assert (a + b)[0] == a[0];
      assert (a + b)[1..] == a[1..] + b;
      WithMagnitudeAppend(a[1..], b, k);
    } else {
      assert a + b == b;
    }
  }

  lemma {:induction false} WithMagnitudeNone(s: seq<AlertEntry>, k: real)
    requires forall i :: 0 <= i < |s| ==> Mag(s[i]) < k
    ensures WithMagnitude(s, k) == []
  {
    if s != [] {
      WithMagnitudeNone(s[1..], k);
    }
  }

  lemma {:induction false} InsertStable(x: AlertEntry, s: seq<AlertEntry>, k: real)
    requires SortedByMagnitude(s)
    ensures WithMagnitude(Insert(x, s), k) == WithMagnitude(s, k) + (if Mag(x) == k then [x] else [])
  {
    if s == [] {
    } else if Mag(s[0]) < Mag(x) {
      assert Insert(x, s) == [x] + s;
      assert ([x] + s)[1..] == s;
      if Mag(x) == k {
        WithMagnitudeNone(s, k);
      }
    } else {
      var t := s[1..];
      assert SortedByMagnitude(t) by {
        forall i, j | 0 <= i < j < |t| ensures Mag(t[i]) >= Mag(t[j]) { assert t[i] == s[i + 1] && t[j] == s[j + 1]; }
      }
      InsertStable(x, t, k);
      assert Insert(x, s) == [s[0]] + Insert(x, t);
      assert ([s[0]] + Insert(x, t))[1..] == Insert(x, t);
    }
  }

  lemma WithMagnitudeSingle(x: AlertEntry, k: real)
    ensures WithMagnitude([x], k) == (if Mag(x) == k then [x] else [])
  {
    assert [x][1..] == [];
  }

  /** The sort is stable: the alerts of any given magnitude appear in the order the scan found them. */
  lemma {:induction false} SortStable(s: seq<AlertEntry>, k: real)
    ensures WithMagnitude(SortByMagnitude(s), k) == WithMagnitude(s, k)
  {
    if s != [] {
      var p, x := s[..|s| - 1], s[|s| - 1];
      SortStable(p, k);
      SortSorted(p);
      InsertStable(x, SortByMagnitude(p), k);
      WithMagnitudeAppend(p, [x], k);
      assert s == p + [x];
      WithMagnitudeSingle(x, k);
    }
  }

  /** The report lists the largest change first, every collected alert exactly once, and keeps the
      scan order among alerts of equal magnitude. */
  lemma ReportOrder(alerts: seq<AlertEntry>, threshold: real, k: real)
    requires alerts != []
    ensures var r := Report(alerts, threshold).value.alerts;
            && SortedByMagnitude(r)
            && multiset(r) == multiset(alerts)
            && WithMagnitude(r, k) == WithMagnitude(alerts, k)
  {
    SortPermutes(alerts);
    SortSorted(alerts);
    SortStable(alerts, k);
  }

  /** The analysis in the DAG: `has_alert` is set exactly when `analyze_for_alerts` returns a report. */
  function HasAlert(r: Option<AlertReport>): bool {
    r.Some?
  }

  lemma HasAlertWhenQualified<TS>(data: seq<CryptoRecord<TS>>, threshold: real)
    requires CollectAlerts(data, threshold).Ok?
    ensures HasAlert(Report(CollectAlerts(data, threshold).value, threshold))
            <==> exists i :: 0 <= i < |data| && Qualifies(data[i], threshold)
  {
    AnalysisOutcome(data, threshold);
  }
}
