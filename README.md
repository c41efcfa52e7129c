# Crypto price pipeline: a verified model of its record processing

The repository runs an hourly Airflow pipeline over CoinGecko market data. It fetches the top
coins, validates and transforms the records, and loads them into a PostgreSQL table
`crypto_prices` keyed by `(execution_date, coin_id)`. It then looks for 24-hour price changes
beyond a threshold and sends Telegram messages: an alert when some coin moved far enough, and a
summary of every price. A Streamlit dashboard shows the same data with a few display formatters.

This project models that record processing in Dafny and proves what the code promises:

- `ApiUtils` covers `validate_crypto_data`, `transform_crypto_data` and `analyze_for_alerts`.
  One record is a `Records.CryptoRecord`, a value in which each key is either missing or present
  with a value that may be `None`. The Python exceptions the code can raise are the `Err` case of a
  `Result`.
- `NotificationUtils` covers `format_crypto_summary` and `format_alert_message`. Both are methods
  that build the message line by line, as the source does, and are proved equal to a
  specification function. Lemmas then show the layout of the message line by line and what each
  number reads back as.
- `Formatters` covers the dashboard's `format_price`, `format_large_number`,
  `format_percentage`, `get_trend_emoji` and `get_trend_color`. `Severity` covers the alert
  table's `get_severity`.
- `DbUtils` covers `insert_crypto_data`. The table is a class holding a `map` from the conflict
  key to the row. The `INSERT ... ON CONFLICT DO UPDATE` statement is a function on that map.
- `Text` renders numbers as Python's `.Nf` and `,.Nf` do, renders the threshold for the alert
  header as the shortest decimal that shows it exactly, and reads these texts back. Reading
  back is how the contracts state which value a text shows. `DateTimes` covers
  `datetime.fromisoformat` on the ISO 8601 forms the API sends, and `strftime`. `Common` holds
  the shared datatypes and list helpers.

Numbers are Dafny `real`s standing for the exact value of a Python float. Rendering with `d`
decimals rounds that exact value half to even, as Python's correctly rounded float formatting
does. The sign of a negative value that rounds to zero is kept, as in `-0.00`.

Notes on the code's behaviour:

- `format_price(42.1234567)` is `$42.1235`, because `.4f` rounds.
  `Formatters.PriceRoundsExample` proves this.
- `transform_crypto_data` does not upper-case the symbol. The symbol is upper-cased later, by the
  alert analysis, the summary and the load.
- `item.get(key, 0)` defaults only a missing key. A key present with `None` stays `None`, and
  `insert_crypto_data` stores a missing optional key as NULL.
- The transform does not check the price; only validation does.
- The model prints the summary's `%Y` year without padding, as the C library's `strftime` does on
  glibc. Python does not promise this, and it only matters for years before 1000, which an
  execution date never has.

## Model

| member | source | states |
|---|---|---|
| ApiUtils.MissingFields | include/api_utils.py:93-97 | The missing-key list is empty exactly when `id`, `symbol`, `current_price` and `last_updated` are all present, and it names only those keys. |
| ApiUtils.ValidateCryptoData | include/api_utils.py:89-108 | Validation succeeds exactly when the batch is non-empty and every record has the four keys and a price that is not `None` and above 0. |
| ApiUtils.TransformRecord | include/api_utils.py:129-141 | A transformed record's `last_updated` is the record's text with every `Z` replaced by `+00:00`, then parsed, and it is a valid `datetime`. |
| ApiUtils.TransformParsed | include/api_utils.py:129-141 | A record with the four required keys whose timestamp text parses always transforms and stores that timestamp. |
| ApiUtils.TransformZulu | include/api_utils.py:138-140 | A record stamped `2024-12-01T00:00:00Z` transforms to midnight of 1 December 2024 at offset 0. |
| ApiUtils.TransformCryptoData | include/api_utils.py:126-145 | The transform succeeds exactly when every record transforms. It then returns one record per input, in order. Otherwise it fails with the exception of the first record that fails. |
| ApiUtils.TransformCopies | include/api_utils.py:130-132 | `id`, `symbol` and `current_price` are copied unchanged, so the symbol keeps its case. |
| ApiUtils.TransformDefaults | include/api_utils.py:133-136 | A missing optional number becomes 0. A present one, `None` included, is kept. All four are present afterwards. |
| ApiUtils.TransformErrors | include/api_utils.py:129-140 | The first missing key in dictionary order gives its `KeyError`. A `None` timestamp gives `AttributeError`, and an unparseable one `ValueError`. |
| ApiUtils.ValidatedTransform | include/api_utils.py:93-140 | A validated record never fails the transform with `KeyError`, and its price stays above 0. |
| ApiUtils.ZuluIsUtc | include/api_utils.py:138-140 | A timestamp ending in `Z` parses to the same value as the one ending in `+00:00`. |
| ApiUtils.ZuluExample | include/api_utils.py:138-140 | `2024-12-01T00:00:00Z` parses to midnight of 1 December 2024 at offset 0. |
| ApiUtils.MakeEntry | include/api_utils.py:169-175 | An alert carries the change it was built from. |
| ApiUtils.EntryFields | include/api_utils.py:169-175 | An alert has the record's id, its upper-cased symbol, its price and change, and 📈 exactly when the change is positive (📉 otherwise). |
| ApiUtils.CollectErrorPersists | include/api_utils.py:165-175 | Once the scan raises, later records do not change the outcome. |
| ApiUtils.QualifyingIndicesCorrect | include/api_utils.py:165-168 | The qualifying positions are exactly the records whose change, with a missing one read as 0, has magnitude at least the threshold. They are listed once each, in increasing order. |
| ApiUtils.CollectAlertsMeaning | include/api_utils.py:165-175 | The scan succeeds exactly when no record raises. It then holds one alert per qualifying record, in input order. |
| ApiUtils.AnalyzeForAlerts | include/api_utils.py:163-190 | The method returns the scan's exception, or else the report, if any, built from all the scan's alerts. |
| ApiUtils.AnalysisOutcome | include/api_utils.py:177-190 | No report exactly when no record qualifies. A report has `has_alert` set, carries the threshold, and holds as many alerts as records qualified. |
| ApiUtils.SortPermutes | include/api_utils.py:182 | The sort is a permutation of the alerts. |
| ApiUtils.SortSorted | include/api_utils.py:182 | After the sort the magnitudes of the changes do not increase. |
| ApiUtils.SortStable | include/api_utils.py:182 | Alerts of equal magnitude keep the order in which the scan found them. |
| ApiUtils.ReportOrder | include/api_utils.py:182-190 | The report's alerts are sorted by magnitude, are a permutation of the scan's alerts, and keep the scan order within each magnitude. |
| ApiUtils.HasAlertWhenQualified | dags/crypto_pipeline_dag.py:268-271 | `has_alert` is set exactly when some record reaches the threshold. |
| Records.UpperSymbol | include/db_utils.py:91 | It raises `KeyError` exactly for a missing symbol and `AttributeError` exactly for `None`. Otherwise the result has the symbol's length and no ASCII lower-case letter. Each lower-case letter becomes its capital and every other character is kept. |
| Text.UpperProperties | include/api_utils.py:171 | Upper-casing leaves no ASCII lower-case letter, is idempotent, and adds or removes no line break. |
| Text.ReplaceAllRemoves | include/api_utils.py:139 | After the replacement no `Z` is left. |
| DateTimes.ParseIso | include/api_utils.py:138-140 | Every parsed timestamp is a valid `datetime`. |
| DateTimes.IsoRoundTrip | include/api_utils.py:138-140 | Parsing inverts `isoformat` on every valid `datetime`. |
| DateTimes.MidnightExample | include/api_utils.py:138-140 | `2024-12-01T00:00:00+00:00` parses to midnight of 1 December 2024 at offset 0. |
| DateTimes.StampReadsBack | include/notification_utils.py:66 | The message timestamp shows exactly the day, month, year, hour and minute of the execution date, and is one line. |
| Text.RoundHalfEven | dashboard/utils/formatters.py:17-21 | The rounded integer is within half a unit of the value scaled by 10^d. At a tie it is the even neighbour. |
| Text.RoundedIsNearest | dashboard/utils/formatters.py:17-21 | A `.Nf` rendering shows a value at most half a unit of its last place away from the number. |
| Text.FixedReadsBack | dashboard/utils/formatters.py:19-21 | A `.Nf` rendering parses back to the rounded value. |
| Text.GroupedUngroups | dashboard/utils/formatters.py:17 | Removing the commas from the `,` rendering gives the plain rendering. |
| Text.GroupPositions | dashboard/utils/formatters.py:17 | A comma sits before every group of three digits counted from the right, and nowhere else. |
| Text.FloatTextReadsBack | include/notification_utils.py:127 | When 1 to 17 decimals show the threshold exactly, its text reads back as the threshold and uses the fewest such decimals, at least one. |
| Formatters.FormatPriceReadsBack | dashboard/utils/formatters.py:16-21 | The price text starts with `$`. It reads back as the price rounded to 2, 4 or 8 decimals for the tiers from 1000, from 1 and below 1, so it is within half a unit of its last decimal. Below 1000 it has no thousands separator. |
| Formatters.PriceGroupedExample | dashboard/utils/formatters.py:16-17 | `format_price(1234.5)` is `$1,234.50`. |
| Formatters.PriceRoundsExample | dashboard/utils/formatters.py:18-19 | `format_price(42.1234567)` is `$42.1235`. |
| Formatters.PriceSmallExample | dashboard/utils/formatters.py:20-21 | `format_price(0.5)` is `$0.50000000`. |
| Formatters.LargeNumberLetter | dashboard/utils/formatters.py:35-42 | The text starts with `$` and ends with the suffix. The character before the suffix is `B` exactly from 1e9, `M` exactly in [1e6, 1e9), `K` exactly in [1e3, 1e6), and a digit exactly below 1e3. |
| Formatters.LargeNumberReadsBack | dashboard/utils/formatters.py:35-42 | The text reads back, tier letter included, to within half a unit of the tier's second decimal of the number. |
| Formatters.FormatPercentageMeaning | dashboard/utils/formatters.py:56-62 | The text ends in `%` and reads back as the change rounded to 2 decimals. It starts with `+` exactly when a sign was asked for and the change is positive, and has no `+` at all without `include_sign`. |
| Formatters.PercentageExamples | dashboard/utils/formatters.py:56-60 | 3.2 with a sign shows as `+3.20%`, and -3.2 as `-3.20%`. |
| Formatters.TrendIntervals | dashboard/utils/formatters.py:75-84 | The five trend symbols cover (5, ∞), (0, 5], (-∞, -5), [-5, 0) and {0}. |
| Formatters.TrendBoundaries | dashboard/utils/formatters.py:75-84 | 5 maps to the plain rise, -5 to the plain fall and 0 to flat. |
| Formatters.ColorCases | dashboard/utils/formatters.py:97-102 | The colour is green exactly for a rise, red exactly for a fall and gray exactly at 0. |
| Formatters.ClassifiersAgree | dashboard/utils/formatters.py:75-102 | The trend symbol points up exactly when the colour is green and down exactly when it is red. |
| Severity.SeverityBands | dashboard/components/alerts.py:170-179 | The four levels are the bands of the change's magnitude at 15, 10 and 5, each lower bound inclusive. A change and its opposite get the same level. |
| Severity.SeverityMonotone | dashboard/components/alerts.py:170-179 | A larger magnitude never gets a lower level. |
| Severity.AlertedIsAboveLow | dashboard/components/alerts.py:174-179 | A level above Low means a magnitude of at least 5, the pipeline's alert threshold. |
| Severity.LabelsDistinct | dashboard/components/alerts.py:172-179 | Different levels show different labels. |
| NotificationUtils.MessagePriceReadsBack | include/notification_utils.py:90-93 | A message price reads back as the price rounded to 2 decimals from 1000 up and to 4 below. It is one line, and below 1000 it has no thousands separator. |
| NotificationUtils.ChangeTextMeaning | include/notification_utils.py:79-87 | The change reads back as the value rounded to 2 decimals. It starts with `+` exactly for a rise and with `-` exactly for a fall. |
| NotificationUtils.ZeroChange | include/notification_utils.py:85-87 | The literal `0.00%` at zero is also the ordinary 2-decimal rendering of 0. |
| NotificationUtils.SummaryFieldsContent | include/notification_utils.py:74-87 | A summary line's values are read exactly when the symbol, the price and the change are all there and not `None`. They are the upper-cased symbol, the price and the change, which is 0 when its key is missing. Each other case raises, and the first key to fail raises first. |
| NotificationUtils.ItemsStop | include/notification_utils.py:73-76 | The first record that cannot be read ends the summary with its exception. |
| NotificationUtils.SummaryLineReadsBack | include/notification_utils.py:79-95 | A price line shows the trend mark, the symbol, the rounded price and the rounded change. The mark is 📈 exactly for a rise and 📉 exactly for a fall. |
| NotificationUtils.VolumeSumDefined | include/notification_utils.py:98 | The volume sum exists exactly when no record's volume is `None`. Otherwise it raises `TypeError`. |
| NotificationUtils.VolumeSumAppend | include/notification_utils.py:98 | The sum over two batches one after the other is the sum of their sums. |
| NotificationUtils.VolumeSumNonnegative | include/notification_utils.py:98 | Non-negative volumes, with missing ones read as 0, sum to a non-negative total. |
| NotificationUtils.FooterReadsBack | include/notification_utils.py:98-99 | The footer shows the total in billions rounded to 2 decimals, within 5 million of the total. |
| NotificationUtils.FormatCryptoSummary | include/notification_utils.py:50-101 | The line-by-line builder returns exactly the summary text, or the first exception. |
| NotificationUtils.SummaryLayout | include/notification_utils.py:66-99 | The summary's lines are the title, the timestamp, a blank line, one price line per record in input order, a blank line and the volume footer. |
| NotificationUtils.SignedChangeMeaning | include/notification_utils.py:142 | The `+.2f` change reads back as the value rounded to 2 decimals. It starts with `+` exactly when the change is at least 0 and with `-` exactly when it is negative. |
| NotificationUtils.FormatAlertMessage | include/notification_utils.py:104-146 | The line-by-line builder returns exactly the alert text, or `TypeError` at the first alert without a price. |
| NotificationUtils.AlertLinesMeaning | include/notification_utils.py:130-142 | The alert text exists exactly when every alert has a price, and raises only `TypeError` otherwise. Alert k then takes lines 3k to 3k+2 of the body. |
| NotificationUtils.AlertLayout | include/notification_utils.py:120-144 | The alert message's lines are the title, the timestamp, the threshold, a blank line, then per alert in report order its direction, symbol and price line, change line and blank line, then the closing line. |
| NotificationUtils.CollectedAlertsOnOneLine | include/api_utils.py:169-175 | Alerts built from one-line symbols have one-line symbols and directions. |
| NotificationUtils.DefaultThresholdText | dags/crypto_pipeline_dag.py:65 | The pipeline's threshold 5.0 shows as `5.0` in the alert header. |
| Common.CollectMeaning | include/db_utils.py:87-100 | A list comprehension that may raise yields one value per element, in order, exactly when no element raises. Otherwise it yields the exception of the first element that raises. |
| DbUtils.BuildValuesContent | include/db_utils.py:87-100 | A record yields its tuple exactly when it has an id, a symbol that is not `None`, a price key and a timestamp key. The keys fail in tuple order. The tuple holds the execution date, the id, the upper-cased symbol, the price and timestamp, and NULL for a missing optional key. |
| DbUtils.TransformedRecordBuilds | include/db_utils.py:87-100 | A transformed record with a symbol always yields its tuple. Its market cap is NULL only when the API sent `None`. |
| DbUtils.BatchValuesMeaning | include/db_utils.py:87-100 | The values list holds the tuple of each record, in order, or the first record's exception. |
| DbUtils.ExecuteIgnoresTable | include/db_utils.py:102-104 | Whether the statements fail, and with which error, does not depend on the table's rows. |
| DbUtils.ExecuteOutcome | include/db_utils.py:70-104 | The statements succeed exactly when no `coin_id` is NULL and no page of 100 rows repeats a key. A failure is a NOT NULL or a cardinality violation. |
| DbUtils.ExecuteAt | include/db_utils.py:76-83 | Afterwards a key no tuple names is as before. A named key holds its old row, or the first tuple's new row, with the six listed columns of the last tuple with that key. |
| DbUtils.ExecuteIdempotent | include/db_utils.py:76-83 | Running the same statements twice gives the table of running them once. |
| DbUtils.LoadKeys | include/db_utils.py:70-84 | After a load every record has an id and its key is in the table. Any other key is there exactly when it was before. |
| DbUtils.LoadKeepsOthers | include/db_utils.py:76-83 | A row whose key is not in the batch is unchanged. |
| DbUtils.LoadedRow | include/db_utils.py:76-100 | A record's row holds that record's price, market cap, volume, both changes and timestamp. On a conflict it keeps the old symbol. A new key gets the record's upper-cased symbol. |
| DbUtils.PageStart | include/db_utils.py:102-104 | `execute_values` sends its rows in statements of 100: each row's statement starts at a multiple of 100, at most 99 rows before it. |
| DbUtils.TuplesMirrorRecords | include/db_utils.py:87-104 | The tuples have a NULL `coin_id` exactly when some record's id is `None`. They repeat a key within a statement exactly when two records of that statement share an id. |
| DbUtils.OnePageDistinct | include/db_utils.py:102-104 | A batch of at most 100 records that loads has distinct ids, so each record has its own row. |
| DbUtils.LoadIdempotent | include/db_utils.py:62-104 | Loading the same batch with the same execution date twice gives the table of loading it once. |
| DbUtils.LoadIgnoresTable | include/db_utils.py:87-104 | Whether a load fails, and with which exception, does not depend on what the table holds. |
| DbUtils.LoadOutcome | include/db_utils.py:87-104 | A non-empty batch loads exactly when every record yields its tuple, no id is `None` and no page of 100 records repeats an id. Failures are the record's own exception or a NOT NULL or cardinality violation. |
| DbUtils.CryptoPricesTable.InsertCryptoData | include/db_utils.py:53-106 | An empty batch changes nothing. A load replaces the rows by the loaded table and returns `Ok` of the record count, which stands for the count the function logs (it returns `None`). A failure leaves the table as it was and returns the exception. |

## Left out

- `fetch_crypto_prices` and `send_telegram_message` are HTTP calls with timeouts and environment variables; they are not modelled.
- `get_db_connection`, `create_table` and `get_latest_prices` open psycopg2 connections, read an SQL file or run queries inside PostgreSQL. A failed load is modelled as the rollback that leaves the table unchanged, and a successful one as the commit.
- The schema file `create_table.sql` is not part of this model. The NOT NULL violation for a `None` id assumes `(execution_date, coin_id)` is the table's primary key. Columns the statement does not write, such as an identity column or a creation time, are not modelled.
- DbUtils.RowKey: execution dates are compared as the `datetime` values they are, not as PostgreSQL instants. Two spellings of one instant at different offsets are different keys here.
- The Airflow DAG's task wiring, retries, XCom serialisation and branch are not modelled. Its only logic is the `has_alert` glue and the threshold constant, which are modelled.
- The dashboard's Streamlit, Plotly and pandas rendering and the SQL in `dashboard/utils/db_client.py` are not modelled; only `get_severity` is.
- Floating point: numbers are exact reals, so sums and divisions are not rounded to binary doubles. Infinities, NaN and the sign of `-0.0` are not modelled.
- Text.FloatTextReadsBack, Text.FloatText: `str(threshold)` is modelled as the shortest decimal, with 1 to 17 decimals, that shows the value exactly. Python prints the shortest decimal that rounds back to the same binary double. The two differ for values that are not short decimals: the double nearest 0.1 shows here as `0.10000000000000001`, while Python prints `0.1`. Binary doubles are not modelled, so this cannot be stated. The exponent form Python uses for very large or very small values is left out too.
- DateTimes.ParseIso accepts only `YYYY-MM-DD[<c>HH:MM[:SS[.f]][(+|-)HH:MM]]`, the forms the API sends, not every form `fromisoformat` accepts.
- Text.Upper upper-cases ASCII letters only; full Unicode case mapping is not modelled.
- Formatters.TrendEmoji returns one of five distinct `Trend` values. The source's mis-encoded emoji strings are not reproduced byte for byte.
- ApiUtils.SortByMagnitude: `alerts.sort` sorts the list in place. The model returns the sorted sequence instead, so aliasing of that list is not modelled.
- NotificationUtils.AlertBlock gives no lines for an alert without a price. The message raises `TypeError` for such an alert before rendering it.
- Printing to the log (`print`) is not modelled.
