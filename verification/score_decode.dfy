/** Decoding of one score message in scores-writer/app.py: the payload is
    parsed as JSON and the three columns of a stored row are read from it with
    Python's `dict.get`, `dict[...]`, `float()`, `int()` and `str()`. Any
    exception on the way means the message yields no row. */
module ScoreDecode {
  import opened Wrappers

  /** A document as `json.loads` returns it. */
  datatype Json =
    | JNull
    | JBool(b: bool)
    | JInt(i: int)
    | JFloat(x: real)
    | JStr(s: string)
    | JList(items: seq<Json>)
    | JObject(fields: map<string, Json>)

  /** A message value: `Unreadable` when it is absent, not UTF-8 or not JSON
      text (the `decode`/`json.loads` calls raise), else the parsed document. */
  datatype Payload = Unreadable | Document(doc: Json)

  /** The parts of Python's conversions whose rules live in the interpreter:
      `float(s)` and `int(s)` on a string, and `str(v)` on a value that is not
      a string (`None` means the call raises). */
  datatype Conversions = Conversions(
    parseFloat: string -> Option<real>,
    parseInt: string -> Option<int>,
    render: Json -> string)

  /** One row for the scores table: `(transaction_id, score, fraud_flag)`. */
  datatype Row = Row(txId: Option<string>, score: real, flag: int)

  /** `int(x)` on a float: truncation toward zero. */
  function Truncate(x: real): (r: int)
    ensures 0.0 <= x ==> r as real <= x < r as real + 1.0
    ensures x < 0.0 ==> r as real - 1.0 < x <= r as real
  {
    if x >= 0.0 then x.Floor else -((-x).Floor)
  }

  /** `float(v)`; `None` where Python raises `TypeError` or `ValueError`:
      `None`, lists and dicts never convert, booleans and numbers always do. */
  function FloatOf(conv: Conversions, v: Json): (r: Option<real>)
    ensures v.JNull? || v.JList? || v.JObject? ==> r.None?
    ensures v.JBool? || v.JInt? || v.JFloat? ==> r.Some?
  {
    match v
    case JNull => None
    case JBool(b) => Some(if b then 1.0 else 0.0)
    case JInt(i) => Some(i as real)
    case JFloat(x) => Some(x)
    case JStr(s) => conv.parseFloat(s)
    case JList(_) => None
    case JObject(_) => None
  }

  /** `int(v)`; `None` where Python raises `TypeError` or `ValueError`:
      `None`, lists and dicts never convert, booleans and numbers always do. */
  function IntOf(conv: Conversions, v: Json): (r: Option<int>)
    ensures v.JNull? || v.JList? || v.JObject? ==> r.None?
    ensures v.JBool? || v.JInt? || v.JFloat? ==> r.Some?
  {
    match v
    case JNull => None
    case JBool(b) => Some(if b then 1 else 0)
    case JInt(i) => Some(i)
    case JFloat(x) => Some(Truncate(x))
    case JStr(s) => conv.parseInt(s)
    case JList(_) => None
    case JObject(_) => None
  }

  /** On a boolean or a number, `int(v)` is `int(float(v))`: the integer
      conversion agrees with truncating the float conversion. */
  lemma IntOfIsTruncatedFloat(conv: Conversions, v: Json)
    requires v.JBool? || v.JInt? || v.JFloat?
    ensures IntOf(conv, v) == Some(Truncate(FloatOf(conv, v).value))
  {
    match v
    case JBool(b) =>
    case JInt(i) =>
      TruncateWhole(i);
    case JFloat(x) =>
  }

  /** Truncating a whole number gives that number back. */
  lemma TruncateWhole(i: int)
    ensures Truncate(i as real) == i
  {
  }

  /** `None if tx is None else str(tx)`. */
  function TxText(conv: Conversions, v: Json): (r: Option<string>)
    ensures r.None? <==> v.JNull?
    ensures v.JStr? ==> r == Some(v.s)
  {
    match v
    case JNull => None
    case JStr(s) => Some(s)
    case _ => Some(conv.render(v))
  }

  /** The row a message yields, or `None` when reading it raises. */
  function Decode(conv: Conversions, p: Payload): (r: Option<Row>)
    ensures r.Some? ==>
              && p.Document? && p.doc.JObject?
              && "score" in p.doc.fields && "fraud_flag" in p.doc.fields
              && FloatOf(conv, p.doc.fields["score"]) == Some(r.value.score)
              && IntOf(conv, p.doc.fields["fraud_flag"]) == Some(r.value.flag)
    ensures r.Some? ==>
              (r.value.txId.None? <==>
                 "transaction_id" !in p.doc.fields || p.doc.fields["transaction_id"].JNull?)
    ensures r.Some? && "transaction_id" in p.doc.fields ==>
              r.value.txId == TxText(conv, p.doc.fields["transaction_id"])
    ensures p.Document? && p.doc.JObject? && "score" in p.doc.fields && "fraud_flag" in p.doc.fields
            && FloatOf(conv, p.doc.fields["score"]).Some? && IntOf(conv, p.doc.fields["fraud_flag"]).Some?
            ==> r.Some?
  {
    match p
    case Unreadable => None
    case Document(doc) =>
      if !doc.JObject? then None
      else
        var f := doc.fields;
        var tx := if "transaction_id" in f then f["transaction_id"] else JNull;
        if "score" !in f || "fraud_flag" !in f then None
        else
          var score := FloatOf(conv, f["score"]);
          var flag := IntOf(conv, f["fraud_flag"]);
          if score.None? || flag.None? then None
          else Some(Row(TxText(conv, tx), score.value, flag.value))
  }

  /** The message a producer writes for `row`: a JSON object with the three
      fields, the identifier as a string or null. */
  function Encode(row: Row): Json
  {
    JObject(map[
      "transaction_id" := (if row.txId.Some? then JStr(row.txId.value) else JNull),
      "score" := JFloat(row.score),
      "fraud_flag" := JInt(row.flag)])
  }

  /** Every row survives a trip through the wire format, whatever the
      interpreter's string conversions are. */
  lemma DecodeEncode(conv: Conversions, row: Row)
    ensures Decode(conv, Document(Encode(row))) == Some(row)
  {
  }

  /** Fields other than the three read are ignored. */
  lemma DecodeIgnoresExtraFields(conv: Conversions, f: map<string, Json>, extra: map<string, Json>)
    requires "transaction_id" !in extra && "score" !in extra && "fraud_flag" !in extra
    ensures Decode(conv, Document(JObject(f + extra))) == Decode(conv, Document(JObject(f)))
  {
    var g := f + extra;
    assert "score" in g <==> "score" in f;
    assert "fraud_flag" in g <==> "fraud_flag" in f;
    assert "transaction_id" in g <==> "transaction_id" in f;
  }
}
