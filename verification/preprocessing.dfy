/** Feature shaping in fraud_detector/src/preprocessing.py: one raw
    transaction record becomes a one-row frame whose columns are exactly the
    feature order, categoricals as strings and numerics as numbers.

    A record is a map from column name to a value of an unspecified type `V`;
    the pandas conversions applied to such values are parameters (`Pandas`).
    The frame operations take the three column lists as a `Schema`; the
    source's lists are `Columns`. */
module Preprocessing {
  import opened Wrappers
  import opened Seqs
  import opened Text

  /** `CAT_COLS`. */
  const CatCols: seq<string> := ["merch", "cat_id", "gender", "one_city", "us_state", "jobs"]

  /** `NUM_COLS`. */
  const NumCols: seq<string> :=
    ["amount", "lat", "lon", "population_city", "merchant_lat", "merchant_lon", "hour", "dayofweek"]

  /** `DROP_COLS`. */
  const DropCols: seq<string> := ["transaction_time", "name_1", "name_2", "street", "post_code"]

  /** `_DEFAULT_ORDER`, also the list every feature name is checked against. */
  const DefaultOrder: seq<string> := CatCols + NumCols

  predicate IsFeature(c: string)
  {
    c in DefaultOrder
  }

  predicate NonBlank(s: string)
  {
    s != ""
  }

  /** No feature name is blank, so the blank-line filter of the loader is
      subsumed by the feature filter. */
  lemma FeaturesNonBlank()
    ensures forall c :: IsFeature(c) ==> NonBlank(c)
  {
    forall c | IsFeature(c)
      ensures NonBlank(c)
    {
      assert forall i :: 0 <= i < |DefaultOrder| ==> |DefaultOrder[i]| > 0;
    }
  }

  // ---------------------------------------------------------------------------
  // The feature order

  /** `ln.strip()` for every line. */
  function StripAll(lines: seq<string>): (r: seq<string>)
    ensures |r| == |lines|
    ensures forall i :: 0 <= i < |lines| ==> r[i] == Strip(lines[i])
  {
    seq(|lines|, i requires 0 <= i < |lines| => Strip(lines[i]))
  }

  /** `_load_features_order`, with the file's lines as input (`None` when the
      file is missing or cannot be read): the stripped non-blank lines that
      name a feature, or the default order when there are none. Every name it
      yields is a feature. */
  function LoadFeaturesOrder(file: Option<seq<string>>): (r: seq<string>)
    ensures r != []
    ensures forall i :: 0 <= i < |r| ==> IsFeature(r[i])
  {
    match file
    case None => DefaultOrder
    case Some(lines) =>
      var filtered := Filter(IsFeature, Filter(NonBlank, StripAll(lines)));
      if filtered == [] then DefaultOrder else filtered
  }

  /** The loaded order is the stripped lines naming a feature, with their
      multiplicities and in file order; when no line names one, or there is
      no file, it is the default order. */
  lemma LoadFeaturesOrderSpec(file: Option<seq<string>>)
    ensures file.None? ==> LoadFeaturesOrder(file) == DefaultOrder
    ensures file.Some? && (forall i :: 0 <= i < |file.value| ==> !IsFeature(Strip(file.value[i])))
            ==> LoadFeaturesOrder(file) == DefaultOrder
    ensures file.Some? && (exists i :: 0 <= i < |file.value| && IsFeature(Strip(file.value[i])))
            ==> && IsSubseq(LoadFeaturesOrder(file), StripAll(file.value))
                && forall x | x in DefaultOrder ::
                     multiset(LoadFeaturesOrder(file))[x] == multiset(StripAll(file.value))[x]
  {
    if file.Some? {
      var stripped := StripAll(file.value);
      FeaturesNonBlank();
      FilterSubsumes(IsFeature, NonBlank, stripped);
      var filtered := Filter(IsFeature, stripped);
      if filtered == [] {
        FilterEmpty(IsFeature, stripped);
      } else {
        FilterIsSubseq(IsFeature, stripped);
        forall x | x in DefaultOrder
          ensures multiset(filtered)[x] == multiset(stripped)[x]
        {
          if x !in stripped {
            assert x !in filtered;
          }
        }
      }
    }
  }

  // ---------------------------------------------------------------------------
  // Frames

  /** The categorical, numeric and dropped column lists. */
  datatype Schema = Schema(cat: seq<string>, num: seq<string>, drop: seq<string>)

  /** `CAT_COLS`, `NUM_COLS` and `DROP_COLS`. */
  const Columns: Schema := Schema(CatCols, NumCols, DropCols)

  /** The lists are pairwise disjoint and the two columns derived from the
      transaction time are numeric. */
  predicate WellFormed(s: Schema)
  {
    && (forall c | c in s.cat :: c !in s.num && c !in s.drop)
    && (forall c | c in s.num :: c !in s.drop)
    && "hour" in s.num && "dayofweek" in s.num
  }

  lemma ColumnsWellFormed()
    ensures WellFormed(Columns)
    ensures Columns.cat + Columns.num == DefaultOrder
    ensures "transaction_time" in Columns.drop
  {
    CategoricalsNotNumeric();
    CategoricalsNotDropped();
    NumericsNotDropped();
  }

  lemma CategoricalsNotNumeric()
    ensures forall c | c in CatCols :: c !in NumCols
  {
  }

  lemma CategoricalsNotDropped()
    ensures forall c | c in CatCols :: c !in DropCols
  {
  }

  lemma NumericsNotDropped()
    ensures forall c | c in NumCols :: c !in DropCols
  {
  }

  /** A pandas timestamp, seen through the two accessors used. */
  datatype Timestamp = Timestamp(hour: int, dayOfWeek: int)

  /** The pandas behaviour shaping relies on: `to_datetime(errors="coerce")`,
      `to_numeric(errors="coerce")` on record values and on strings (`None`
      is NaT or NaN), and `astype(str)` on record values and on numbers. */
  datatype Pandas<!V> = Pandas(
    toDatetime: V -> Option<Timestamp>,
    toNumeric: V -> Option<real>,
    parseNumber: string -> Option<real>,
    render: V -> string,
    renderNumber: real -> string)

  /** A cell of the one-row frame: a record value as given, a missing value
      (NaN or NaT), a number, or a string. */
  datatype Cell<V> = Raw(v: V) | Missing | Num(x: real) | Text(s: string)

  type Frame<V> = map<string, Cell<V>>

  /** A column of the output: its name and its single value. */
  datatype Column<V> = Column(name: string, value: Cell<V>)

  /** `astype(str)` on one cell; NaN renders as "nan". */
  function AsStr<V>(pd: Pandas<V>, c: Cell<V>): string
  {
    match c
    case Raw(v) => pd.render(v)
    case Missing => "nan"
    case Num(x) => pd.renderNumber(x)
    case Text(s) => s
  }

  /** `to_numeric(errors="coerce")` on one cell; `None` is NaN. */
  function ToNumeric<V>(pd: Pandas<V>, c: Cell<V>): Option<real>
  {
    match c
    case Raw(v) => pd.toNumeric(v)
    case Missing => None
    case Num(x) => Some(x)
    case Text(s) => pd.parseNumber(s)
  }

  /** `.dt.hour` (or `.dt.dayofweek`) of a coerced timestamp; NaT gives NaN. */
  function TimePart<V>(ts: Option<Timestamp>, hour: bool): Cell<V>
  {
    match ts
    case None => Missing
    case Some(t) => Num((if hour then t.hour else t.dayOfWeek) as real)
  }

  /** The frame built from the record, with `hour` and `dayofweek` derived
      from `transaction_time` when that column is present, replacing any
      values the record carried for them. */
  function RecordFrame<V>(pd: Pandas<V>, record: map<string, V>): (df: Frame<V>)
    ensures "transaction_time" in record ==>
              && df.Keys == record.Keys + {"hour", "dayofweek"}
              && df["hour"] == TimePart(pd.toDatetime(record["transaction_time"]), true)
              && df["dayofweek"] == TimePart(pd.toDatetime(record["transaction_time"]), false)
    ensures "transaction_time" !in record ==> df.Keys == record.Keys
    ensures forall k | k in record && !("transaction_time" in record && k in {"hour", "dayofweek"}) ::
              df[k] == Raw(record[k])
  {
    var df := map k | k in record :: Raw(record[k]);
    if "transaction_time" in record then
      var ts := pd.toDatetime(record["transaction_time"]);
      df["hour" := TimePart(ts, true)]["dayofweek" := TimePart(ts, false)]
    else df
  }

  /** Drops the listed columns that are present. */
  function DropColumns<V>(s: Schema, df: Frame<V>): (r: Frame<V>)
    ensures r.Keys == df.Keys - (set c | c in s.drop)
    ensures forall c | c in r :: r[c] == df[c]
  {
    df - (set c | c in s.drop)
  }

  /** Adds each of `cols` that is not yet a column, filled by `fill`; columns
      already there are left as they are. */
  function AddMissing<V>(df: Frame<V>, cols: seq<string>, fill: string -> Cell<V>): (r: Frame<V>)
    ensures r.Keys == df.Keys + (set c | c in cols)
    ensures forall c | c in df :: r[c] == df[c]
    ensures forall c | c in r && c !in df :: r[c] == fill(c)
    decreases |cols|
  {
    if cols == [] then df
    else
      var next := if cols[0] in df then df else df[cols[0] := fill(cols[0])];
      AddMissing(next, cols[1..], fill)
  }

  /** Adding columns that are all present already changes nothing. */
  lemma {:induction false} AddMissingPresent<V>(df: Frame<V>, cols: seq<string>, fill: string -> Cell<V>)
    requires forall i :: 0 <= i < |cols| ==> cols[i] in df
    ensures AddMissing(df, cols, fill) == df
    decreases |cols|
  {
    if cols != [] {
      AddMissingPresent(df, cols[1..], fill);
    }
  }

  function UnknownText<V>(c: string): Cell<V>
  {
    Text("unknown")
  }

  function Zero<V>(c: string): Cell<V>
  {
    Num(0.0)
  }

  /** `_ensure_columns`: every categorical and numeric column is present,
      existing columns are untouched, missing categoricals hold "unknown" and
      missing numerics hold 0. */
  function EnsureColumns<V>(s: Schema, df: Frame<V>): (r: Frame<V>)
    ensures r.Keys == df.Keys + (set c | c in s.cat + s.num)
    ensures forall c | c in df :: r[c] == df[c]
    ensures forall c | c in s.cat && c !in df :: r[c] == Text("unknown")
    ensures forall c | c in s.num && c !in s.cat && c !in df :: r[c] == Num(0.0)
  {
    assert (set c | c in s.cat + s.num) == (set c | c in s.cat) + (set c | c in s.num);
    AddMissing(AddMissing(df, s.cat, UnknownText), s.num, Zero)
  }

  /** Ensuring the columns a second time changes nothing. */
  lemma EnsureColumnsIdempotent<V>(s: Schema, df: Frame<V>)
    ensures EnsureColumns(s, EnsureColumns(s, df)) == EnsureColumns(s, df)
  {
    var once := EnsureColumns(s, df);
    assert EnsureColumns(s, once).Keys == once.Keys;
  }

  /** The loop over categoricals: each becomes `astype(str)` of itself. The
      `fillna("unknown")` after it never fills anything, as `astype(str)`
      leaves no missing value. */
  function CastCategoricals<V>(s: Schema, pd: Pandas<V>, df: Frame<V>): (r: Frame<V>)
    ensures r.Keys == df.Keys
    ensures forall c | c in r && c in s.cat :: r[c] == Text(AsStr(pd, df[c]))
    ensures forall c | c in r && c !in s.cat :: r[c] == df[c]
  {
    map k | k in df :: if k in s.cat then Text(AsStr(pd, df[k])) else df[k]
  }

  /** The fill of lines 60-61 on a whole column after coercion (`None` is
      NaN): 0 when every value is NaN, else the median of the column, which
      pandas takes over the present values and is a parameter here; present
      values are kept. */
  function FillColumn(col: seq<Option<real>>, median: seq<Option<real>> -> real): (r: seq<real>)
    ensures |r| == |col|
    ensures forall i :: 0 <= i < |col| && col[i].Some? ==> r[i] == col[i].value
    ensures (forall i :: 0 <= i < |col| ==> col[i].None?) ==> forall i :: 0 <= i < |r| ==> r[i] == 0.0
    ensures (exists j :: 0 <= j < |col| && col[j].Some?) ==>
              forall i :: 0 <= i < |col| && col[i].None? ==> r[i] == median(col)
  {
    var fill := if forall i :: 0 <= i < |col| ==> col[i].None? then 0.0 else median(col);
    seq(|col|, i requires 0 <= i < |col| => if col[i].Some? then col[i].value else fill)
  }

  /** The fill on a one-row column: a present value stays, and a column whose
      only value is NaN is filled with 0. */
  function FillSingleRow(x: Option<real>): (r: real)
    ensures x.Some? ==> r == x.value
  {
    match x
    case Some(v) => v
    case None => 0.0
  }

  /** On a one-row frame the median never matters: whatever it is, the column
      fill is `FillSingleRow`. */
  lemma FillSingleRowIsColumnFill(x: Option<real>, median: seq<Option<real>> -> real)
    ensures FillColumn([x], median) == [FillSingleRow(x)]
  {
    if x.None? {
      assert forall i :: 0 <= i < |[x]| ==> [x][i].None?;
    }
  }

  /** The loop over numerics: each is coerced and its NaN filled. */
  function CoerceNumerics<V>(s: Schema, pd: Pandas<V>, df: Frame<V>): (r: Frame<V>)
    ensures r.Keys == df.Keys
    ensures forall c | c in r && c in s.num :: r[c] == Num(FillSingleRow(ToNumeric(pd, df[c])))
    ensures forall c | c in r && c !in s.num :: r[c] == df[c]
  {
    map k | k in df :: if k in s.num then Num(FillSingleRow(ToNumeric(pd, df[k]))) else df[k]
  }

  /** The frame of lines 42-61, before the back-fill and the selection: no
      dropped column survives unless a feature list names it, every feature
      column is present, categoricals hold strings and numerics numbers. */
  function Shaped<V>(s: Schema, pd: Pandas<V>, record: map<string, V>): (df: Frame<V>)
    ensures forall c | c in s.drop && c !in s.cat && c !in s.num :: c !in df
    ensures forall c | c in s.cat + s.num :: c in df
    ensures forall c | c in s.cat && c !in s.num :: df[c].Text?
    ensures forall c | c in s.num :: df[c].Num?
  {
    var ensured := EnsureColumns(s, DropColumns(s, RecordFrame(pd, record)));
    CoerceNumerics(s, pd, CastCategoricals(s, pd, ensured))
  }

  /** The default the back-fill loop gives a column. */
  function BackFillValue<V>(s: Schema): string -> Cell<V>
  {
    c => if c in s.cat then Text("unknown") else Num(0.0)
  }

  /** `df[FEATURES_ORDER]` once every name in `order` is a column. */
  function Select<V>(df: Frame<V>, order: seq<string>): (x: seq<Column<V>>)
    requires forall i :: 0 <= i < |order| ==> order[i] in df
    ensures |x| == |order|
    ensures forall i :: 0 <= i < |order| ==> x[i] == Column(order[i], df[order[i]])
  {
    seq(|order|, i requires 0 <= i < |order| => Column(order[i], df[order[i]]))
  }

  /** `preprocess_one`, with `FEATURES_ORDER` as `order`: the output's
      columns are `order`, in that order, each with the shaped frame's value
      (or the back-fill default for a name the frame lacks). */
  function PreprocessOne<V>(s: Schema, pd: Pandas<V>, order: seq<string>, record: map<string, V>)
    : (x: seq<Column<V>>)
    ensures |x| == |order|
    ensures forall i :: 0 <= i < |x| ==> x[i].name == order[i]
    ensures forall i :: 0 <= i < |x| && order[i] in Shaped(s, pd, record) ==>
              x[i].value == Shaped(s, pd, record)[order[i]]
  {
    var df := AddMissing(Shaped(s, pd, record), order, BackFillValue(s));
    Select(df, order)
  }

  // ---------------------------------------------------------------------------
  // Properties

  /** The back-fill loop adds nothing when every name in the order is a
      categorical or numeric column. */
  lemma BackFillNeverFires<V>(s: Schema, pd: Pandas<V>, order: seq<string>, record: map<string, V>)
    requires forall i :: 0 <= i < |order| ==> order[i] in s.cat + s.num
    ensures var df := Shaped(s, pd, record);
            AddMissing(df, order, BackFillValue(s)) == df
  {
    var df := Shaped(s, pd, record);
    assert forall i :: 0 <= i < |order| ==> order[i] in df;
    AddMissingPresent(df, order, BackFillValue(s));
  }

  /** The value of feature `c` computed directly from the record:
      categoricals are the record's value as a string, or "unknown"; numerics
      are the coerced value, or 0 when coercion fails or the column is absent,
      with `hour` and `dayofweek` taken from `transaction_time` when the
      record has one. */
  function Expected<V>(s: Schema, pd: Pandas<V>, record: map<string, V>, c: string): Cell<V>
    requires c in s.cat + s.num
  {
    if c in s.cat then
      Text(if c in record then pd.render(record[c]) else "unknown")
    else if (c == "hour" || c == "dayofweek") && "transaction_time" in record then
      Num(FillSingleRow(ToNumeric(pd, TimePart(pd.toDatetime(record["transaction_time"]), c == "hour"))))
    else
      Num(if c in record then FillSingleRow(pd.toNumeric(record[c])) else 0.0)
  }

  /** The output row computed directly from the record: each column of the
      order with its expected value. */
  function ExpectedRow<V>(s: Schema, pd: Pandas<V>, order: seq<string>, record: map<string, V>): (x: seq<Column<V>>)
    requires forall i :: 0 <= i < |order| ==> order[i] in s.cat + s.num
  {
    seq(|order|, i requires 0 <= i < |order| => Column(order[i], Expected(s, pd, record, order[i])))
  }

  /** Each feature column of the shaped frame holds its expected value. */
  lemma ShapedFeature<V>(s: Schema, pd: Pandas<V>, record: map<string, V>, c: string)
    requires WellFormed(s)
    requires c in s.cat + s.num
    ensures Shaped(s, pd, record)[c] == Expected(s, pd, record, c)
  {
    if c in s.cat {
      ShapedCategorical(s, pd, record, c);
    } else {
      ShapedNumeric(s, pd, record, c);
    }
  }

  lemma ShapedCategorical<V>(s: Schema, pd: Pandas<V>, record: map<string, V>, c: string)
    requires WellFormed(s)
    requires c in s.cat
    ensures Shaped(s, pd, record)[c] == Text(if c in record then pd.render(record[c]) else "unknown")
  {
    var frame := RecordFrame(pd, record);
    var dropped := DropColumns(s, frame);
    var ensured := EnsureColumns(s, dropped);
    var cast := CastCategoricals(s, pd, ensured);
    assert c !in s.num && c !in s.drop;
    assert c != "hour" && c != "dayofweek";
    assert c in dropped <==> c in record;
    assert Shaped(s, pd, record)[c] == cast[c] == Text(AsStr(pd, ensured[c]));
    if c in record {
      assert ensured[c] == dropped[c] == frame[c] == Raw(record[c]);
    } else {
      assert ensured[c] == Text("unknown");
    }
  }

  lemma ShapedNumeric<V>(s: Schema, pd: Pandas<V>, record: map<string, V>, c: string)
    requires WellFormed(s)
    requires c in s.num
    ensures var derived := (c == "hour" || c == "dayofweek") && "transaction_time" in record;
            Shaped(s, pd, record)[c]
            == Num(if derived then FillSingleRow(ToNumeric(pd, TimePart(pd.toDatetime(record["transaction_time"]), c == "hour")))
                   else if c in record then FillSingleRow(pd.toNumeric(record[c]))
                   else 0.0)
  {
    var ensured := EnsureColumns(s, DropColumns(s, RecordFrame(pd, record)));
    EnsuredNumeric(s, pd, record, c);
    assert c !in s.cat;
    assert Shaped(s, pd, record)[c] == Num(FillSingleRow(ToNumeric(pd, ensured[c])));
  }

  /** Before coercion, a numeric column holds the derived time part, the
      record's value, or the 0 `_ensure_columns` adds. */
  lemma EnsuredNumeric<V>(s: Schema, pd: Pandas<V>, record: map<string, V>, c: string)
    requires WellFormed(s)
    requires c in s.num
    ensures var derived := (c == "hour" || c == "dayofweek") && "transaction_time" in record;
            EnsureColumns(s, DropColumns(s, RecordFrame(pd, record)))[c]
            == if derived then TimePart(pd.toDatetime(record["transaction_time"]), c == "hour")
               else if c in record then Raw(record[c])
               else Num(0.0)
  {
    var frame := RecordFrame(pd, record);
    var dropped := DropColumns(s, frame);
    assert c !in s.cat && c !in s.drop;
    assert c in dropped <==> c in frame;
    if (c == "hour" || c == "dayofweek") && "transaction_time" in record {
      assert dropped[c] == frame[c];
    } else if c in record {
      assert dropped[c] == frame[c];
    } else {
      assert c !in frame;
    }
  }

  /** The output is the expected value of every column of the order, in that
      order, whatever else the record holds. */
  lemma PreprocessOneExpected<V>(s: Schema, pd: Pandas<V>, order: seq<string>, record: map<string, V>)
    requires WellFormed(s)
    requires forall i :: 0 <= i < |order| ==> order[i] in s.cat + s.num
    ensures PreprocessOne(s, pd, order, record) == ExpectedRow(s, pd, order, record)
    ensures forall i :: 0 <= i < |order| ==>
              PreprocessOne(s, pd, order, record)[i] == Column(order[i], Expected(s, pd, record, order[i]))
  {
    forall i | 0 <= i < |order|
      ensures PreprocessOne(s, pd, order, record)[i] == Column(order[i], Expected(s, pd, record, order[i]))
    {
      ShapedFeature(s, pd, record, order[i]);
    }
  }

  /** For the source's column lists and any loaded feature order: no dropped
      column survives, the back-fill adds nothing, the output columns are the order and each holds
      its expected value. */
  lemma SourcePreprocessOne<V>(pd: Pandas<V>, file: Option<seq<string>>, record: map<string, V>)
    ensures forall c | c in DropCols :: c !in Shaped(Columns, pd, record)
    ensures var order := LoadFeaturesOrder(file);
            && AddMissing(Shaped(Columns, pd, record), order, BackFillValue(Columns)) == Shaped(Columns, pd, record)
            && forall i :: 0 <= i < |order| ==>
                 PreprocessOne(Columns, pd, order, record)[i] == Column(order[i], Expected(Columns, pd, record, order[i]))
  {
    ColumnsWellFormed();
    var order := LoadFeaturesOrder(file);
    assert forall i :: 0 <= i < |order| ==> order[i] in Columns.cat + Columns.num;
    BackFillNeverFires(Columns, pd, order, record);
    PreprocessOneExpected(Columns, pd, order, record);
  }

  /** Two records that agree on the feature columns and on
      `transaction_time` (presence and value) are shaped identically. */
  lemma PreprocessOneIgnoresOtherKeys<V>(s: Schema, pd: Pandas<V>, order: seq<string>,
                                         r1: map<string, V>, r2: map<string, V>)
    requires WellFormed(s)
    requires forall i :: 0 <= i < |order| ==> order[i] in s.cat + s.num
    requires forall c | c in s.cat + s.num + ["transaction_time"] ::
               (c in r1 <==> c in r2) && (c in r1 ==> r1[c] == r2[c])
    ensures PreprocessOne(s, pd, order, r1) == PreprocessOne(s, pd, order, r2)
  {
    PreprocessOneExpected(s, pd, order, r1);
    PreprocessOneExpected(s, pd, order, r2);
    ExpectedAgree(s, pd, order, r1, r2);
  }

  lemma ExpectedAgree<V>(s: Schema, pd: Pandas<V>, order: seq<string>, r1: map<string, V>, r2: map<string, V>)
    requires forall i :: 0 <= i < |order| ==> order[i] in s.cat + s.num
    requires forall c | c in s.cat + s.num + ["transaction_time"] ::
               (c in r1 <==> c in r2) && (c in r1 ==> r1[c] == r2[c])
    ensures ExpectedRow(s, pd, order, r1) == ExpectedRow(s, pd, order, r2)
  {
    var keys := s.cat + s.num + ["transaction_time"];
    assert "transaction_time" in keys;
    forall i | 0 <= i < |order|
      ensures Expected(s, pd, r1, order[i]) == Expected(s, pd, r2, order[i])
    {
      var c := order[i];
      assert c in keys;
      ExpectedLocal(s, pd, r1, r2, c);
    }
  }

  /** A feature's expected value reads only that column and
      `transaction_time`. */
  lemma ExpectedLocal<V>(s: Schema, pd: Pandas<V>, r1: map<string, V>, r2: map<string, V>, c: string)
    requires c in s.cat + s.num
    requires (c in r1 <==> c in r2) && (c in r1 ==> r1[c] == r2[c])
    requires ("transaction_time" in r1 <==> "transaction_time" in r2)
    requires "transaction_time" in r1 ==> r1["transaction_time"] == r2["transaction_time"]
    ensures Expected(s, pd, r1, c) == Expected(s, pd, r2, c)
  {
    if c !in s.cat && (c == "hour" || c == "dayofweek") && "transaction_time" in r1 {
      assert r1["transaction_time"] == r2["transaction_time"];
    }
  }
}
