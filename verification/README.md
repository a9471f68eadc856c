# Scores writer and feature shaping, modelled in Dafny

This project models two parts of a fraud-scoring system.

- The **scores writer** (`scores-writer/app.py`, `main`) reads scored
  transactions from a Kafka topic. It buffers the decoded rows `(transaction_id,
  score, fraud_flag)` and writes them to a PostgreSQL table in batches. After
  each batch insert it commits the consumer offsets synchronously. Auto-commit
  is off.
- The **feature shaping** (`fraud_detector/src/preprocessing.py`) turns one raw
  transaction record into a one-row frame. Its columns are exactly the feature
  order, which is loaded from a file or falls back to a built-in list.

The loop is a pure function `ScoresWriter.Step` over an immutable `Pipeline`
state. The state holds the batch, the table contents, the records polled so
far, the committed position and a running flag. Each step takes the poll
outcome plus two booleans: whether the insert transaction commits and whether
the offset commit succeeds. This covers every failure combination without any
I/O. `ScoresWriter.Run` folds `Step` over a sequence of events.

Modules:

- `Wrappers` (`wrappers.dfy`): `Option`.
- `Seqs` (`seqs.dfy`): list-comprehension `Filter` and the subsequence relation.
- `Text` (`text.dfy`): Python's `str.isspace` and `str.strip`.
- `ScoreDecode` (`score_decode.dfy`): the JSON document, Python's
  `float()`/`int()`/`str()` coercions, and message decoding.
- `ScoresWriter` (`scores_writer.dfy`): the ingest loop and its invariants.
- `Preprocessing` (`preprocessing.dfy`): the feature order, `_ensure_columns`
  and `preprocess_one`.

Behaviour of the code worth noting:

- Sink failures are not always retried. A failed flush on the idle path
  (an empty poll) is outside the inner `try`, so it ends `main`. Only a failed
  size-triggered flush is caught, and the batch is then kept and retried.
- There is no stop signal. Of the loop exits, the model has only that
  idle-path failure as an event. The loop is also left, through the `finally`
  that closes the consumer, by anything raised by `poll` or `msg.error()`
  (outside the inner `try`) and by exceptions that are not an `Exception`
  (such as `KeyboardInterrupt`) anywhere. These exits are covered by stopping
  the event sequence after any step; see "## Left out".
- `fraud_flag` is any value `int()` accepts, not only 0 or 1.
- A numeric feature defaults to its coerced value, or to 0. With one row the
  median is never used.

Modelling choices:

- An error event from `poll` carries no record, so it does not advance the
  consumer position. A record that fails to decode does advance it.
- `consumer.commit(asynchronous=False)` with no arguments commits the position
  after every record consumed so far. In the model this is `cursor :=
  |consumed|`.
- When the last records polled all fail to decode and the batch is empty, an
  empty poll flushes nothing. The committed position then stays before those
  records until the next flush. `CleanRunDeliversAll` states this: past the
  cursor there are only records that yield no row.

## Model

| member | source | states |
|---|---|---|
| `ScoreDecode.FloatOf` | scores-writer/app.py:86 | `float()` raises on null, lists and objects and always succeeds on booleans and numbers |
| `ScoreDecode.IntOf` | scores-writer/app.py:87 | `int()` raises on null, lists and objects and always succeeds on booleans and numbers |
| `ScoreDecode.IntOfIsTruncatedFloat` | scores-writer/app.py:86-87 | on a boolean or number, `int(v)` equals `int(float(v))`, the truncation of the float conversion |
| `ScoreDecode.Truncate` | scores-writer/app.py:87 | `int()` of a float truncates toward zero: the result is within 1 of the value and no farther from zero |
| `ScoreDecode.TxText` | scores-writer/app.py:85-88 | the stored identifier is null exactly when `transaction_id` is JSON null; a string identifier is stored unchanged |
| `ScoreDecode.Decode` | scores-writer/app.py:83-88 | a message yields a row if and only if it is a JSON object with `score` and `fraud_flag` and both coerce; the row carries the coerced values; the identifier is null exactly when the field is absent or null, and otherwise is `str()` of the field, a string being stored unchanged |
| `ScoreDecode.DecodeEncode` | scores-writer/app.py:84-88 | every row a producer writes as `{transaction_id, score, fraud_flag}` decodes back to itself, whatever the interpreter's string conversions do |
| `ScoreDecode.DecodeIgnoresExtraFields` | scores-writer/app.py:84-87 | fields other than the three read do not change the decoded row |
| `ScoresWriter.Flush` | scores-writer/app.py:91-96 | the table gains the whole batch only if the insert commits; the position moves only if both the insert and the offset commit succeed, and then to everything consumed; the batch is cleared only then, otherwise kept as it was |
| `ScoresWriter.Step` | scores-writer/app.py:66-99 | a stopped loop does nothing; only a record advances the consumed position, by that record; the committed position moves only after a successful insert and commit, which empty the batch; the table only gains the batch (plus the row just appended) and only on a committed insert; the loop only ends on a failed idle-path flush |
| `ScoresWriter.Run` | scores-writer/app.py:66-99 | iterating the loop over a sequence of events keeps the records consumed so far as a prefix and consumes at most one record per event |
| `ScoresWriter.IdleWithEmptyBatch` | scores-writer/app.py:68-77 | an empty poll with an empty batch changes nothing: no insert and no offset commit |
| `ScoresWriter.IdleFlush` | scores-writer/app.py:68-77 | an empty poll with a non-empty batch inserts every row in order, commits the position of everything consumed and clears the batch; if either call fails, the loop ends with the batch and position unchanged |
| `ScoresWriter.SourceErrorSkipped` | scores-writer/app.py:79-81 | an error event leaves batch, table, position and running flag unchanged |
| `ScoresWriter.UndecodableSkipped` | scores-writer/app.py:83-88 | a record that fails to decode is consumed and nothing else changes |
| `ScoresWriter.DecodedAppended` | scores-writer/app.py:88-99 | a decoded row is appended at the end of the batch; once the batch reaches 50 rows it is flushed, and on success the batch is empty; a failed size-triggered flush keeps the batch, with the new row, and the loop running |
| `ScoresWriter.StoppedIsFinal` | scores-writer/app.py:101-105 | once the loop has ended, no later event changes anything |
| `ScoresWriter.CursorMonotone` | scores-writer/app.py:74 | the committed position never moves backwards |
| `ScoresWriter.RunSnoc` | scores-writer/app.py:66-99 | one more event is one more iteration of the loop |
| `ScoresWriter.RowsAppend` | scores-writer/app.py:83-88 | the rows of two consecutive record runs are the rows of the first followed by those of the second |
| `ScoresWriter.RowsSplit` | scores-writer/app.py:83-88 | the rows of the consumed records are those up to the committed position followed by those past it |
| `ScoresWriter.SinkFromConsumed` | scores-writer/app.py:91-93 | under the invariant, every row of the table with the batch appended was decoded from a consumed record |
| `ScoresWriter.FlushValid` | scores-writer/app.py:91-96 | a flush keeps the at-least-once invariant whether it succeeds, fails at the insert or fails at the offset commit |
| `ScoresWriter.RecordValid` | scores-writer/app.py:83-89 | consuming a record keeps the invariant, with its row appended to the batch when it decodes to one |
| `ScoresWriter.StepValid` | scores-writer/app.py:66-99 | every iteration keeps the invariant: position at most consumed, batch equal to the rows past the position, the rows up to the position stored in order, and only consumed rows stored |
| `ScoresWriter.RunValid` | scores-writer/app.py:66-99 | every run from a valid state ends in a valid state |
| `ScoresWriter.StartValid` | scores-writer/app.py:61-63 | the initial state meets both invariants |
| `ScoresWriter.FlushClean` | scores-writer/app.py:91-96 | a successful flush stores the batch exactly once and empties it |
| `ScoresWriter.StepClean` | scores-writer/app.py:66-99 | with every flush succeeding, the table holds each committed row exactly once and the batch stays below 50 rows |
| `ScoresWriter.RunClean` | scores-writer/app.py:66-99 | the same holds for every run in which each flush succeeds |
| `ScoresWriter.NoLossAcrossRestart` | scores-writer/app.py:56 | after any run, with any failures, the rows re-read after a restart from the committed position are exactly the batch; the table plus those rows contain every decoded row in arrival order, so rows may be duplicated but none is lost |
| `ScoresWriter.CleanRunDeliversAll` | scores-writer/app.py:66-99 | if every flush succeeds and the last poll is empty, the table holds every decoded row exactly once and in order, the batch is empty, and only rowless records lie past the committed position |
| `ScoresWriter.CleanRunBounded` | scores-writer/app.py:90-96 | if every flush succeeds, the batch never holds 50 rows between iterations |
| `ScoresWriter.MalformedBetweenValid` | scores-writer/app.py:66-99 | two valid records around an unreadable one, then an empty poll: the table holds the two rows and the position is past all three records |
| `Seqs.Filter` | fraud_detector/src/preprocessing.py:20-21 | a comprehension with a condition keeps exactly the passing elements, with their multiplicities |
| `Seqs.FilterIsSubseq` | fraud_detector/src/preprocessing.py:21 | the kept elements stay in their original order |
| `Seqs.FilterSubsumes` | fraud_detector/src/preprocessing.py:20-21 | a prior filter by a weaker condition does not change the result |
| `Seqs.FilterEmpty` | fraud_detector/src/preprocessing.py:22 | an empty result means no element passes |
| `Text.IsSpace` | fraud_detector/src/preprocessing.py:20 | the characters `str.isspace()` accepts, which `strip()` removes |
| `Text.Strip` | fraud_detector/src/preprocessing.py:20 | `strip()` returns a slice with only whitespace cut off both ends; it starts and ends on non-whitespace, and is empty exactly when the line is blank |
| `Text.StripIdempotent` | fraud_detector/src/preprocessing.py:20 | stripping a stripped line changes nothing |
| `Preprocessing.FeaturesNonBlank` | fraud_detector/src/preprocessing.py:6-13 | no feature name is blank, so the loader's blank-line test is subsumed by the feature test |
| `Preprocessing.StripAll` | fraud_detector/src/preprocessing.py:20 | every line is stripped, one result per line, in order |
| `Preprocessing.LoadFeaturesOrder` | fraud_detector/src/preprocessing.py:16-25 | the feature order is never empty and every name in it is a categorical or numeric column |
| `Preprocessing.LoadFeaturesOrderSpec` | fraud_detector/src/preprocessing.py:16-25 | with no readable file, or no line naming a feature, the order is the default; otherwise it is the stripped lines naming features, in file order and with their multiplicities |
| `Preprocessing.ColumnsWellFormed` | fraud_detector/src/preprocessing.py:6-13 | the categorical, numeric and dropped lists are pairwise disjoint, `hour` and `dayofweek` are numeric, `transaction_time` is dropped, and the default order is categoricals then numerics |
| `Preprocessing.RecordFrame` | fraud_detector/src/preprocessing.py:42-47 | when `transaction_time` is present, `hour` and `dayofweek` hold the parts derived from it even if the record supplied them; every other record value is kept as given |
| `Preprocessing.DropColumns` | fraud_detector/src/preprocessing.py:49-51 | the dropped columns that were present are gone and every other column is unchanged |
| `Preprocessing.AddMissing` | fraud_detector/src/preprocessing.py:31-36 | each listed column that was missing is added with its default; existing columns are untouched |
| `Preprocessing.EnsureColumns` | fraud_detector/src/preprocessing.py:29-38 | every categorical and numeric column is present and existing columns are untouched; a missing categorical gets "unknown", and a missing numeric gets 0 |
| `Preprocessing.EnsureColumnsIdempotent` | fraud_detector/src/preprocessing.py:29-38 | applying `_ensure_columns` a second time changes nothing |
| `Preprocessing.CastCategoricals` | fraud_detector/src/preprocessing.py:55-56 | each categorical becomes the string rendering of its value and nothing else changes; the `fillna` is not modelled, because `astype(str)` leaves no missing value for it to fill |
| `Preprocessing.FillColumn` | fraud_detector/src/preprocessing.py:60-61 | after coercion, a column's present values are kept and a column with no present value is filled with 0; otherwise gaps get the median |
| `Preprocessing.FillSingleRow` | fraud_detector/src/preprocessing.py:60-61 | on a one-row column a present value is kept |
| `Preprocessing.FillSingleRowIsColumnFill` | fraud_detector/src/preprocessing.py:58-61 | on a one-row column the fill equals `FillSingleRow` whatever the median is, so the median never matters |
| `Preprocessing.CoerceNumerics` | fraud_detector/src/preprocessing.py:58-61 | each numeric becomes its coerced value, or 0 when coercion gives NaN; nothing else changes |
| `Preprocessing.Shaped` | fraud_detector/src/preprocessing.py:42-61 | a dropped column survives only if a feature list names it; every feature column is present; categoricals hold strings and numerics hold numbers |
| `Preprocessing.Select` | fraud_detector/src/preprocessing.py:66 | `df[FEATURES_ORDER]` has one column per name of the order, in that order, each holding the frame's column of that name |
| `Preprocessing.PreprocessOne` | fraud_detector/src/preprocessing.py:40-68 | the output's columns are the feature order, in that order; each holds the shaped frame's value when the frame has that column |
| `Preprocessing.AddMissingPresent` | fraud_detector/src/preprocessing.py:63-65 | adding columns that are all present already leaves the frame unchanged |
| `Preprocessing.BackFillNeverFires` | fraud_detector/src/preprocessing.py:63-65 | when every name in the order is a categorical or numeric column, the back-fill loop adds nothing |
| `Preprocessing.ShapedCategorical` | fraud_detector/src/preprocessing.py:31-33 | a categorical feature is the string rendering of the record's value, or "unknown" when the record lacks it |
| `Preprocessing.ShapedNumeric` | fraud_detector/src/preprocessing.py:44-61 | a numeric feature is the coerced record value, or 0 when coercion fails or the column is absent; `hour` and `dayofweek` come from `transaction_time` when the record has one |
| `Preprocessing.ShapedFeature` | fraud_detector/src/preprocessing.py:42-61 | every feature column of the shaped frame equals the value defined directly from the record |
| `Preprocessing.EnsuredNumeric` | fraud_detector/src/preprocessing.py:29-51 | before coercion, a numeric column holds the part derived from `transaction_time`, the record's own value, or the 0 `_ensure_columns` adds, in that order of precedence |
| `Preprocessing.PreprocessOneExpected` | fraud_detector/src/preprocessing.py:40-68 | the output equals the row defined directly from the record: each column of the order, in order, with its expected value |
| `Preprocessing.SourcePreprocessOne` | fraud_detector/src/preprocessing.py:27-68 | with the source's column lists and any loaded order, no dropped column survives, the back-fill adds nothing, and each output column holds its directly defined value |
| `Preprocessing.PreprocessOneIgnoresOtherKeys` | fraud_detector/src/preprocessing.py:63-66 | records that agree on the feature columns and on `transaction_time` give the same output; other input keys never appear |
| `Preprocessing.ExpectedAgree` | fraud_detector/src/preprocessing.py:40-68 | records that agree on the feature columns and on `transaction_time` have the same directly defined row |
| `Preprocessing.ExpectedLocal` | fraud_detector/src/preprocessing.py:44-61 | a feature's value depends only on its own column and on `transaction_time` |

## Left out

- Kafka consumer set-up, `subscribe`, the poll timeout and `close`. These are
  network I/O. Poll results are an input sequence of `Poll` values, and `close`
  is the end of the loop (`running` false).
- Loop exits other than a failed idle-path flush: an exception from `poll` or
  `msg.error()`, or one that is not an `Exception` (such as
  `KeyboardInterrupt`), leaves the loop at once through the `finally`. The
  model has no event for them. A run cut off after any step stands for such an
  exit, and `NoLossAcrossRestart` holds for every event sequence.
- Where a restart resumes when nothing has been committed yet. The consumer
  group then starts from `auto.offset.reset` (scores-writer/app.py:55, from the environment,
  `earliest` by default). `NoLossAcrossRestart` assumes the restart re-reads
  from the committed position, which for cursor 0 means `earliest`. With
  `latest`, the uncommitted batch would not be re-read.
- Multi-partition offsets. A single consumed count stands for the consumer
  position.
- PostgreSQL connections, `execute_values`, the DDL and `ensure_table`. These
  are database I/O. The table is an append-only sequence, and the insert
  commits all rows or none. Whether the insert commits is a step input.
- Environment configuration, logging, and the start-up `time.sleep(2)`.
- Rules that belong to the Python interpreter: parsing a `str` in `float()` and
  `int()`, and `str()` of non-string values. These are the `Conversions`
  parameters. JSON text parsing is also left out: a payload is either
  unreadable or a parsed document.
- Values a `real` cannot represent: NaN, infinities, float rounding, and the
  `OverflowError` of `float()` on huge integers.
- pandas behaviour: `to_datetime`, `to_numeric`, `astype(str)` rendering, and
  the median. These are the `Pandas` parameters. The median never matters for
  a one-row frame.
- Reading the features file: it is an optional list of lines, and a missing or
  unreadable file is `None`. Newline splitting by `readlines()` is not
  modelled.
- `Text.Strip` covers Python's whitespace characters, which are listed out
  explicitly. No other Unicode handling is modelled.
- Frame column order before the final selection. The selection fixes the
  output order, so the frame is a map.
