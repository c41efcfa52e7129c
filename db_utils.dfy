/** The load stage: `insert_crypto_data` turns the transformed records into rows of the
    `crypto_prices` table with one `INSERT ... ON CONFLICT (execution_date, coin_id) DO UPDATE`
    statement sent through `execute_values`. The table is held in memory as a map from the
    conflict key to the rest of the row. */
module DbUtils {
  import opened Common
  import opened Text
  import opened DateTimes
  import opened Records
  import opened ApiUtils

  /** The conflict target `(execution_date, coin_id)`. */
  datatype RowKey = RowKey(executionDate: DateTime, coinId: string)

  /** The other columns the statement writes. */
  datatype Row = Row(
    symbol: string,
    currentPrice: Nullable<real>,
    marketCap: Nullable<real>,
    totalVolume: Nullable<real>,
    priceChange24h: Nullable<real>,
    priceChangePercentage24h: Nullable<real>,
    lastUpdated: Nullable<DateTime>)

  /** One tuple of `values`, in the column order of the INSERT. `coin_id` may still be `None`. */
  datatype RowValues = RowValues(
    executionDate: DateTime,
    coinId: Nullable<string>,
    symbol: string,
    currentPrice: Nullable<real>,
    marketCap: Nullable<real>,
    totalVolume: Nullable<real>,
    priceChange24h: Nullable<real>,
    priceChangePercentage24h: Nullable<real>,
    lastUpdated: Nullable<DateTime>)

  /* ---------------------------------------------------------------- the values list */

  /** The tuple for one record, its entries evaluated left to right: `item['id']`,
      `item['symbol'].upper()`, `item['current_price']`, four `item.get(...)` and `item['last_updated']`. */
  function BuildValues(item: Record, executionDate: DateTime): Result<RowValues> {
    match Index(item.id, "id")
    case Err(e) => Err(e)
    case Ok(id) =>
      match UpperSymbol(item.symbol)
      case Err(e) => Err(e)
      case Ok(symbol) =>
        match Index(item.currentPrice, "current_price")
        case Err(e) => Err(e)
        case Ok(price) =>
          match Index(item.lastUpdated, "last_updated")
          case Err(e) => Err(e)
          case Ok(updated) =>
            Ok(RowValues(executionDate, id, symbol, price,
                         GetOrNull(item.marketCap), GetOrNull(item.totalVolume),
                         GetOrNull(item.priceChange24h), GetOrNull(item.priceChangePercentage24h),
                         updated))
  }

  /** The list comprehension over the whole batch: the first record that raises ends it. */
  function BatchValues(data: seq<Record>, executionDate: DateTime): Result<seq<RowValues>> {
    Collect((item: Record) => BuildValues(item, executionDate), data)
  }

  /** When, and with which exception, a record yields its tuple; and what the tuple holds. Missing
      optional keys become NULL, not 0. */
  lemma BuildValuesContent(item: Record, executionDate: DateTime)
    ensures BuildValues(item, executionDate).Ok? <==>
      item.id.Present? && item.symbol.Present? && item.symbol.value.Val?
      && item.currentPrice.Present? && item.lastUpdated.Present?
    ensures item.id.Absent? ==> BuildValues(item, executionDate) == Err(KeyError("id"))
    ensures item.id.Present? && item.symbol.Absent? ==>
      BuildValues(item, executionDate) == Err(KeyError("symbol"))
    ensures item.id.Present? && item.symbol == Present(Null) ==>
      BuildValues(item, executionDate) == Err(AttributeError)
    ensures item.id.Present? && item.symbol.Present? && item.symbol.value.Val? && item.currentPrice.Absent? ==>
      BuildValues(item, executionDate) == Err(KeyError("current_price"))
    ensures item.id.Present? && item.symbol.Present? && item.symbol.value.Val? && item.currentPrice.Present?
            && item.lastUpdated.Absent? ==>
      BuildValues(item, executionDate) == Err(KeyError("last_updated"))
    ensures BuildValues(item, executionDate).Ok? ==>
      var v := BuildValues(item, executionDate).value;
      && v.executionDate == executionDate
      && v.coinId == item.id.value
      && v.symbol == Upper(item.symbol.value.value)
      && v.currentPrice == item.currentPrice.value
      && v.lastUpdated == item.lastUpdated.value
      && (item.marketCap.Absent? ==> v.marketCap == Null)
      && (item.marketCap.Present? ==> v.marketCap == item.marketCap.value)
      && (item.totalVolume.Absent? ==> v.totalVolume == Null)
      && (item.totalVolume.Present? ==> v.totalVolume == item.totalVolume.value)
      && (item.priceChange24h.Absent? ==> v.priceChange24h == Null)
      && (item.priceChange24h.Present? ==> v.priceChange24h == item.priceChange24h.value)
      && (item.priceChangePercentage24h.Absent? ==> v.priceChangePercentage24h == Null)
      && (item.priceChangePercentage24h.Present? ==> v.priceChangePercentage24h == item.priceChangePercentage24h.value)
  {
  }

  /** A record straight from the transform always yields its tuple, with every optional column set. */
  lemma TransformedRecordBuilds(raw: RawRecord, executionDate: DateTime)
    requires TransformRecord(raw).Ok? && raw.symbol.Present? && raw.symbol.value.Val?
    ensures BuildValues(TransformRecord(raw).value, executionDate).Ok?
    ensures var v := BuildValues(TransformRecord(raw).value, executionDate).value;
      v.marketCap.Val? || raw.marketCap == Present(Null)
  {
    TransformDefaults(raw);
  }

  /* ---------------------------------------------------------------- the statement */

  /** `execute_values` sends the tuples in pages of this many rows, one statement per page. */
  const PageSize: nat := 100

  /** The index of the first row in the page of row `i`. */
  function PageStart(i: nat): (s: nat)
    ensures s <= i && i - s < PageSize && s % PageSize == 0
  {
    i - i % PageSize
  }

  predicate HasKey(v: RowValues, k: RowKey) {
    v.coinId == Val(k.coinId) && v.executionDate == k.executionDate
  }

  /** Some row of `vs` has conflict key `k`. */
  predicate Touches(vs: seq<RowValues>, k: RowKey) {
    exists j :: 0 <= j < |vs| && HasKey(vs[j], k)
  }

  /** Two tuples aim at the same key. */
  predicate SameKey(a: RowValues, b: RowValues) {
    a.coinId == b.coinId && a.executionDate == b.executionDate
  }

  /** Row `n` has the same key as an earlier row of its own page. */
  predicate RepeatsInPage(vs: seq<RowValues>, n: nat)
    requires n < |vs|
  {
    exists j :: PageStart(n) <= j < n && SameKey(vs[j], vs[n])
  }

  /** A new row: every column from the tuple. */
  function NewRow(v: RowValues): Row {
    Row(v.symbol, v.currentPrice, v.marketCap, v.totalVolume, v.priceChange24h,
        v.priceChangePercentage24h, v.lastUpdated)
  }

  /** `DO UPDATE SET`: the six listed columns come from `EXCLUDED`; `symbol` is not listed and keeps
      its old value. */
  function Merge(r: Row, v: RowValues): Row {
    r.(currentPrice := v.currentPrice, marketCap := v.marketCap, totalVolume := v.totalVolume,
       priceChange24h := v.priceChange24h, priceChangePercentage24h := v.priceChangePercentage24h,
       lastUpdated := v.lastUpdated)
  }

  /** The table after inserting row `v` under key `k`, or updating the row already there. */
  function Upsert(rows: map<RowKey, Row>, k: RowKey, v: RowValues): map<RowKey, Row> {
    rows[k := if k in rows then Merge(rows[k], v) else NewRow(v)]
  }

  /** The statements over all tuples, row by row. A NULL `coin_id` violates the NOT NULL of the key
      column; a second row with the same key in one statement is the cardinality violation
      PostgreSQL raises for `ON CONFLICT DO UPDATE` ("cannot affect row a second time"). */
  function Execute(rows: map<RowKey, Row>, vs: seq<RowValues>): Result<map<RowKey, Row>> {
    if vs == [] then Ok(rows)
    else
      var n := |vs| - 1;
      match Execute(rows, vs[..n])
      case Err(e) => Err(e)
      case Ok(before) =>
        if vs[n].coinId.Null? then Err(NotNullViolation)
        else if RepeatsInPage(vs, n) then Err(CardinalityViolation)
        else Ok(Upsert(before, RowKey(vs[n].executionDate, vs[n].coinId.value), vs[n]))
  }

  /** The whole call: an empty batch returns before touching the table; otherwise the values list,
      then the statements. Any exception rolls the transaction back. */
  function Load(rows: map<RowKey, Row>, data: seq<Record>, executionDate: DateTime): Result<map<RowKey, Row>> {
    if data == [] then Ok(rows)
    else
      match BatchValues(data, executionDate)
      case Err(e) => Err(e)
      case Ok(vs) => Execute(rows, vs)
  }

  /** Rows `j <= n` are in one page exactly when `j` is at or after the start of `n`'s page. */
  lemma SamePage(j: nat, n: nat)
    requires j <= n
    ensures j / PageSize == n / PageSize <==> PageStart(n) <= j
  {
  }

  /** Whether the statements succeed, and which exception they raise, does not depend on the rows
      already in the table. */
  lemma {:induction false} ExecuteIgnoresTable(a: map<RowKey, Row>, b: map<RowKey, Row>, vs: seq<RowValues>)
    ensures Execute(a, vs).Ok? <==> Execute(b, vs).Ok?
    ensures Execute(a, vs).Err? ==> Execute(b, vs) == Execute(a, vs)
  {
    if vs != [] {
      ExecuteIgnoresTable(a, b, vs[..|vs| - 1]);
    }
  }

  /** The statements succeed exactly when no `coin_id` is NULL and no page holds one key twice.
      A failure is one of the two violations: the cardinality one when every `coin_id` is set, the
      NOT NULL one when no page repeats a key. */
  lemma {:induction false} ExecuteOutcome(rows: map<RowKey, Row>, vs: seq<RowValues>)
    ensures Execute(rows, vs).Ok? <==>
      && (forall i :: 0 <= i < |vs| ==> vs[i].coinId.Val?)
      && (forall i, j :: 0 <= i < j < |vs| && i / PageSize == j / PageSize ==> !SameKey(vs[i], vs[j]))
    ensures Execute(rows, vs).Err? ==>
      Execute(rows, vs).error == NotNullViolation || Execute(rows, vs).error == CardinalityViolation
    ensures Execute(rows, vs).Err? && (forall i :: 0 <= i < |vs| ==> vs[i].coinId.Val?) ==>
      Execute(rows, vs).error == CardinalityViolation
    ensures Execute(rows, vs).Err?
            && (forall i, j :: 0 <= i < j < |vs| && i / PageSize == j / PageSize ==> !SameKey(vs[i], vs[j])) ==>
      Execute(rows, vs).error == NotNullViolation
  {
    if vs != [] {
      var n := |vs| - 1;
      var init := vs[..n];
      ExecuteOutcome(rows, init);
      KeyedStep(vs);
      PagesStep(vs);
    }
  }

  /** Every `coin_id` is set exactly when it is set before the last tuple and in the last one. */
  lemma KeyedStep(vs: seq<RowValues>)
    requires vs != []
    ensures var n := |vs| - 1;
            (forall i :: 0 <= i < |vs| ==> vs[i].coinId.Val?) <==>
            (forall i :: 0 <= i < n ==> vs[..n][i].coinId.Val?) && vs[n].coinId.Val?
  {
    var n := |vs| - 1;
    assert forall i :: 0 <= i < n ==> vs[..n][i] == vs[i];
  }

  /** No page repeats a key exactly when none does before the last tuple and the last tuple does
      not repeat a key of its own page. */
  lemma PagesStep(vs: seq<RowValues>)
    requires vs != []
    ensures var n := |vs| - 1;
            (forall i, j :: 0 <= i < j < |vs| && i / PageSize == j / PageSize ==> !SameKey(vs[i], vs[j])) <==>
            (forall i, j :: 0 <= i < j < n && i / PageSize == j / PageSize ==> !SameKey(vs[..n][i], vs[..n][j]))
            && !RepeatsInPage(vs, n)
  {
    var n := |vs| - 1;
    assert forall i :: 0 <= i < n ==> vs[..n][i] == vs[i];
    forall j | 0 <= j < n
      ensures j / PageSize == n / PageSize <==> PageStart(n) <= j
    {
      SamePage(j, n);
    }
  }

  /** The index of the last tuple with key `k`. */
  function LastWith(vs: seq<RowValues>, k: RowKey): (j: nat)
    requires Touches(vs, k)
    ensures j < |vs| && HasKey(vs[j], k)
    ensures forall i :: j < i < |vs| ==> !HasKey(vs[i], k)
  {
    var n := |vs| - 1;
    if HasKey(vs[n], k) then n
    else
      assert Touches(vs[..n], k) by {
        var w :| 0 <= w < |vs| && HasKey(vs[w], k);
        assert vs[..n][w] == vs[w];
      }
      LastWith(vs[..n], k)
  }

  /** The index of the first tuple with key `k`. */
  function FirstWith(vs: seq<RowValues>, k: RowKey): (j: nat)
    requires Touches(vs, k)
    ensures j < |vs| && HasKey(vs[j], k)
    ensures forall i :: 0 <= i < j ==> !HasKey(vs[i], k)
  {
    var n := |vs| - 1;
    if Touches(vs[..n], k) then
      var j := FirstWith(vs[..n], k);
      assert vs[..n][j] == vs[j];
      assert forall i :: 0 <= i < j ==> vs[..n][i] == vs[i];
      j
    else
      assert forall i :: 0 <= i < n ==> vs[..n][i] == vs[i];
      n
  }

  /** The row that key `k` starts from: the one already in the table, else the first tuple's. */
  function Seed(rows: map<RowKey, Row>, vs: seq<RowValues>, k: RowKey): Row
    requires Touches(vs, k)
  {
    if k in rows then rows[k] else NewRow(vs[FirstWith(vs, k)])
  }

  /** After successful statements, a key no tuple names is as before; a key some tuple names holds
      the row it started from with the six updatable columns of the last such tuple. */
  lemma {:induction false} ExecuteAt(rows: map<RowKey, Row>, vs: seq<RowValues>, k: RowKey)
    requires Execute(rows, vs).Ok?
    ensures !Touches(vs, k) ==>
      && (k in Execute(rows, vs).value <==> k in rows)
      && (k in rows ==> Execute(rows, vs).value[k] == rows[k])
    ensures Touches(vs, k) ==>
      && k in Execute(rows, vs).value
      && Execute(rows, vs).value[k] == Merge(Seed(rows, vs, k), vs[LastWith(vs, k)])
  {
    if vs != [] {
      var n := |vs| - 1;
      var init := vs[..n];
      assert forall i :: 0 <= i < n ==> init[i] == vs[i];
      ExecuteAt(rows, init, k);
      var before := Execute(rows, init).value;
      var kn := RowKey(vs[n].executionDate, vs[n].coinId.value);
      assert Execute(rows, vs).value == Upsert(before, kn, vs[n]);
      if k == kn {
        assert LastWith(vs, k) == n;
        if Touches(init, k) {
          assert FirstWith(vs, k) == FirstWith(init, k);
        } else {
          assert FirstWith(vs, k) == n;
        }
      } else {
        assert !HasKey(vs[n], k);
        assert Touches(vs, k) <==> Touches(init, k);
        if Touches(init, k) {
          assert LastWith(vs, k) == LastWith(init, k);
          assert FirstWith(vs, k) == FirstWith(init, k);
        }
      }
    }
  }

  /** Running the same statements a second time changes nothing. */
  lemma ExecuteIdempotent(rows: map<RowKey, Row>, vs: seq<RowValues>)
    requires Execute(rows, vs).Ok?
    ensures Execute(Execute(rows, vs).value, vs) == Execute(rows, vs)
  {
    var once := Execute(rows, vs).value;
    ExecuteIgnoresTable(rows, once, vs);
    var twice := Execute(once, vs).value;
    forall k
      ensures (k in twice <==> k in once) && (k in once ==> twice[k] == once[k])
    {
      ExecuteAt(rows, vs, k);
      ExecuteAt(once, vs, k);
    }
    assert twice == once;
  }

  /** The values list holds one tuple per record, in order, or the first record's exception. */
  lemma BatchValuesMeaning(data: seq<Record>, executionDate: DateTime)
    ensures BatchValues(data, executionDate).Ok? <==>
      forall i :: 0 <= i < |data| ==> BuildValues(data[i], executionDate).Ok?
    ensures BatchValues(data, executionDate).Ok? ==>
      (&& |BatchValues(data, executionDate).value| == |data|
       && forall i :: 0 <= i < |data| ==>
            BatchValues(data, executionDate).value[i] == BuildValues(data[i], executionDate).value)
    ensures BatchValues(data, executionDate).Err? ==>
      (exists k :: 0 <= k < |data|
        && BuildValues(data[k], executionDate) == Err(BatchValues(data, executionDate).error)
        && forall i :: 0 <= i < k ==> BuildValues(data[i], executionDate).Ok?)
  {
    CollectMeaning((item: Record) => BuildValues(item, executionDate), data);
  }

  /** The key record `i` is stored under. */
  function RecordKey(item: Record, executionDate: DateTime): RowKey
    requires item.id.Present? && item.id.value.Val?
  {
    RowKey(executionDate, item.id.value.value)
  }

  /** After a successful load, every record's key is in the table, and the other keys are exactly
      those already there. */
  lemma LoadKeys(rows: map<RowKey, Row>, data: seq<Record>, executionDate: DateTime)
    requires Load(rows, data, executionDate).Ok?
    ensures forall i :: 0 <= i < |data| ==> data[i].id.Present? && data[i].id.value.Val?
    ensures forall i :: 0 <= i < |data| ==> RecordKey(data[i], executionDate) in Load(rows, data, executionDate).value
    ensures forall k :: (forall i :: 0 <= i < |data| ==> k != RecordKey(data[i], executionDate)) ==>
      (k in Load(rows, data, executionDate).value <==> k in rows)
  {
    if data != [] {
      BatchValuesMeaning(data, executionDate);
      var vs := BatchValues(data, executionDate).value;
      ExecuteOutcome(rows, vs);
      forall i | 0 <= i < |data|
        ensures data[i].id.Present? && data[i].id.value.Val?
        ensures RecordKey(data[i], executionDate) in Load(rows, data, executionDate).value
      {
        BuildValuesContent(data[i], executionDate);
        assert HasKey(vs[i], RecordKey(data[i], executionDate));
        ExecuteAt(rows, vs, RecordKey(data[i], executionDate));
      }
      forall k | forall i :: 0 <= i < |data| ==> k != RecordKey(data[i], executionDate)
        ensures k in Load(rows, data, executionDate).value <==> k in rows
      {
        assert !Touches(vs, k) by {
          forall j | 0 <= j < |vs| ensures !HasKey(vs[j], k) {
            BuildValuesContent(data[j], executionDate);
          }
        }
        ExecuteAt(rows, vs, k);
      }
    }
  }

  /** A row whose key is not in the batch is left as it was. */
  lemma LoadKeepsOthers(rows: map<RowKey, Row>, data: seq<Record>, executionDate: DateTime, k: RowKey)
    requires Load(rows, data, executionDate).Ok? && k in rows
    requires forall i :: 0 <= i < |data| ==> data[i].id != Present(Val(k.coinId)) || k.executionDate != executionDate
    ensures k in Load(rows, data, executionDate).value && Load(rows, data, executionDate).value[k] == rows[k]
  {
    if data != [] {
      BatchValuesMeaning(data, executionDate);
      var vs := BatchValues(data, executionDate).value;
      assert !Touches(vs, k) by {
        forall j | 0 <= j < |vs| ensures !HasKey(vs[j], k) {
          BuildValuesContent(data[j], executionDate);
        }
      }
      ExecuteAt(rows, vs, k);
    }
  }

  /** The row of a record that no later record of the batch shares its id with: the six updatable
      columns are that record's; the symbol is the old row's when the key was already there, and
      that record's upper-cased symbol when the key is new and no earlier record has the id. */
  lemma LoadedRow(rows: map<RowKey, Row>, data: seq<Record>, executionDate: DateTime, i: nat)
    requires Load(rows, data, executionDate).Ok? && i < |data|
    requires forall j :: i < j < |data| ==> data[j].id != data[i].id
    ensures data[i].id.Present? && data[i].id.value.Val? && data[i].symbol.Present? && data[i].symbol.value.Val?
            && data[i].currentPrice.Present? && data[i].lastUpdated.Present?
    ensures RecordKey(data[i], executionDate) in Load(rows, data, executionDate).value
    ensures var k := RecordKey(data[i], executionDate);
            var row := Load(rows, data, executionDate).value[k];
            var item := data[i];
            && row.currentPrice == item.currentPrice.value
            && row.marketCap == GetOrNull(item.marketCap)
            && row.totalVolume == GetOrNull(item.totalVolume)
            && row.priceChange24h == GetOrNull(item.priceChange24h)
            && row.priceChangePercentage24h == GetOrNull(item.priceChangePercentage24h)
            && row.lastUpdated == item.lastUpdated.value
            && (k in rows ==> row.symbol == rows[k].symbol)
            && (k !in rows && (forall j :: 0 <= j < i ==> data[j].id != data[i].id) ==>
                  row.symbol == Upper(item.symbol.value.value))
  {
    BatchValuesMeaning(data, executionDate);
    var vs := BatchValues(data, executionDate).value;
    BuildValuesContent(data[i], executionDate);
    assert vs[i].coinId.Val? by {
      ExecuteOutcome(rows, vs);
    }
    var k := RecordKey(data[i], executionDate);
    assert HasKey(vs[i], k);
    ExecuteAt(rows, vs, k);
    assert LastWith(vs, k) == i by {
      LastIsOnly(data, executionDate, vs, i, LastWith(vs, k));
    }
    if k !in rows && (forall j :: 0 <= j < i ==> data[j].id != data[i].id) {
      assert FirstWith(vs, k) == i by {
        FirstIsOnly(data, executionDate, vs, i, FirstWith(vs, k));
      }
    }
  }

  lemma LastIsOnly(data: seq<Record>, executionDate: DateTime, vs: seq<RowValues>, i: nat, last: nat)
    requires BatchValues(data, executionDate) == Ok(vs) && i < |data| && last < |vs|
    requires data[i].id.Present? && data[i].id.value.Val?
    requires forall j :: i < j < |data| ==> data[j].id != data[i].id
    requires HasKey(vs[last], RecordKey(data[i], executionDate))
    requires forall j :: last < j < |vs| ==> !HasKey(vs[j], RecordKey(data[i], executionDate))
    ensures last == i
  {
    BatchValuesMeaning(data, executionDate);
    BuildValuesContent(data[i], executionDate);
    BuildValuesContent(data[last], executionDate);
  }

  lemma FirstIsOnly(data: seq<Record>, executionDate: DateTime, vs: seq<RowValues>, i: nat, first: nat)
    requires BatchValues(data, executionDate) == Ok(vs) && i < |data| && first < |vs|
    requires data[i].id.Present? && data[i].id.value.Val?
    requires forall j :: 0 <= j < i ==> data[j].id != data[i].id
    requires HasKey(vs[first], RecordKey(data[i], executionDate))
    requires forall j :: 0 <= j < first ==> !HasKey(vs[j], RecordKey(data[i], executionDate))
    ensures first == i
  {
    BatchValuesMeaning(data, executionDate);
    BuildValuesContent(data[i], executionDate);
    BuildValuesContent(data[first], executionDate);
  }

  /** Loading the same batch with the same execution date twice gives the table of loading it once. */
  lemma LoadIdempotent(rows: map<RowKey, Row>, data: seq<Record>, executionDate: DateTime)
    requires Load(rows, data, executionDate).Ok?
    ensures Load(Load(rows, data, executionDate).value, data, executionDate) == Load(rows, data, executionDate)
  {
    if data != [] {
      ExecuteIdempotent(rows, BatchValues(data, executionDate).value);
    }
  }

  /** Whether a load fails, and with which exception, does not depend on what the table holds. */
  lemma LoadIgnoresTable(a: map<RowKey, Row>, b: map<RowKey, Row>, data: seq<Record>, executionDate: DateTime)
    ensures Load(a, data, executionDate).Ok? <==> Load(b, data, executionDate).Ok?
    ensures Load(a, data, executionDate).Err? ==> Load(b, data, executionDate) == Load(a, data, executionDate)
  {
    if data != [] && BatchValues(data, executionDate).Ok? {
      ExecuteIgnoresTable(a, b, BatchValues(data, executionDate).value);
    }
  }

  /** A non-empty batch loads exactly when every record yields its tuple, no id is `None` and no
      page of 100 records repeats an id. A record that cannot be read fails the call with its
      exception; otherwise the failure is a NOT NULL or a cardinality violation. */
  lemma LoadOutcome(rows: map<RowKey, Row>, data: seq<Record>, executionDate: DateTime)
    requires data != []
    ensures Load(rows, data, executionDate).Ok? <==>
      && (forall i :: 0 <= i < |data| ==> BuildValues(data[i], executionDate).Ok?)
      && (forall i :: 0 <= i < |data| ==> data[i].id.Present? && data[i].id.value.Val?)
      && (forall i, j :: 0 <= i < j < |data| && i / PageSize == j / PageSize ==> data[i].id != data[j].id)
    ensures BatchValues(data, executionDate).Err? ==>
      Load(rows, data, executionDate) == Err(BatchValues(data, executionDate).error)
    ensures BatchValues(data, executionDate).Ok? && Load(rows, data, executionDate).Err? ==>
      (|| Load(rows, data, executionDate).error == NotNullViolation
       || Load(rows, data, executionDate).error == CardinalityViolation)
  {
    BatchValuesMeaning(data, executionDate);
    if BatchValues(data, executionDate).Ok? {
      var vs := BatchValues(data, executionDate).value;
      ExecuteOutcome(rows, vs);
      TuplesMirrorRecords(data, executionDate);
    }
  }

  /** A batch of at most one page that loads has distinct ids, so every record has its own row. */
  lemma OnePageDistinct(rows: map<RowKey, Row>, data: seq<Record>, executionDate: DateTime)
    requires Load(rows, data, executionDate).Ok? && |data| <= PageSize
    ensures forall i, j :: 0 <= i < j < |data| ==> data[i].id != data[j].id
  {
    if data != [] {
      LoadOutcome(rows, data, executionDate);
      assert forall i :: 0 <= i < |data| ==> i / PageSize == 0;
    }
  }

  /** With every tuple built, a tuple's `coin_id` is set exactly when its record's id is, and two
      tuples share a key exactly when their records share an id. */
  lemma TuplesMirrorRecords(data: seq<Record>, executionDate: DateTime)
    requires BatchValues(data, executionDate).Ok?
    ensures var vs := BatchValues(data, executionDate).value;
      && |vs| == |data|
      && ((forall i :: 0 <= i < |vs| ==> vs[i].coinId.Val?) <==>
          (forall i :: 0 <= i < |data| ==> data[i].id.Present? && data[i].id.value.Val?))
      && ((forall i, j :: 0 <= i < j < |vs| && i / PageSize == j / PageSize ==> !SameKey(vs[i], vs[j])) <==>
          (forall i, j :: 0 <= i < j < |data| && i / PageSize == j / PageSize ==> data[i].id != data[j].id))
  {
    BatchValuesMeaning(data, executionDate);
    var vs := BatchValues(data, executionDate).value;
    forall i | 0 <= i < |data| ensures data[i].id.Present? && vs[i].coinId == data[i].id.value
                                        && vs[i].executionDate == executionDate {
      BuildValuesContent(data[i], executionDate);
    }
  }

  /* ---------------------------------------------------------------- the table */

  class CryptoPricesTable {
    var rows: map<RowKey, Row>

    constructor()
      ensures rows == map[]
    {
      rows := map[];
    }

    /** `insert_crypto_data`: on success the number of records the function logs (it returns
        `None`), on failure the exception; a failed call leaves the table as it was. */
    method InsertCryptoData(data: seq<Record>, executionDate: DateTime) returns (r: Result<nat>)
      modifies this
      ensures data == [] ==> r == Ok(0) && rows == old(rows)
      ensures Load(old(rows), data, executionDate).Ok? ==>
        r == Ok(|data|) && rows == Load(old(rows), data, executionDate).value
      ensures Load(old(rows), data, executionDate).Err? ==>
        r == Err(Load(old(rows), data, executionDate).error) && rows == old(rows)
    {
      if |data| == 0 {
        return Ok(0);
      }
      var values := BatchValues(data, executionDate);
      if values.Err? {
        return Err(values.error);
      }
      var outcome := Execute(rows, values.value);
      if outcome.Err? {
        return Err(outcome.error);
      }
      rows := outcome.value;
      return Ok(|data|);
    }
  }
}
