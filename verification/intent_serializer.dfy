/**
 * `serialize_intent`: `dataclasses.asdict`, the timestamp replaced by its
 * `isoformat()` text, then `json.dumps(data, separators=(",", ":"))`.
 * `DecodeIntent` is the reader a consumer would use; it inverts the encoder.
 */
module IntentSerializer {
  import opened Wrappers
  import opened Dicts
  import opened Floats
  import opened DateTimes
  import opened JsonText
  import opened IntentSchema

  /** The Python values the dict built from an intent holds. */
  datatype PyValue = PyNone | PyStr(str: string) | PyFloat(num: Float) | PyDateTime(dt: DateTime)

  /** What `isoformat` or `json.dumps` raise on a value they cannot handle. */
  datatype PyError = AttributeError | TypeError

  /** A `dict`: its items in insertion order. */
  type PyDict = seq<(string, PyValue)>

  /** `d.get(k)`: the value stored under `k`, if any. */
  function Get(d: PyDict, k: string): (r: Option<PyValue>)
    ensures r.None? <==> k !in Keys(d)
    ensures r.Some? ==> (k, r.value) in d
  {
    if d == [] then None
    else if d[0].0 == k then Some(d[0].1)
    else Get(d[1..], k)
  }

  /**
   * `d[k] = v`: an existing key keeps its position and takes the new value;
   * a new key goes last. Every other item stays where it was.
   */
  function Set(d: PyDict, k: string, v: PyValue): (r: PyDict)
    ensures Keys(r) == if k in Keys(d) then Keys(d) else Keys(d) + [k]
    ensures forall i :: 0 <= i < |d| && d[i].0 != k ==> r[i] == d[i]
  {
    if d == [] then [(k, v)]
    else if d[0].0 == k then [(k, v)] + d[1..]
    else [d[0]] + Set(d[1..], k, v)
  }

  /** After `d[k] = v`, `k` maps to `v` and every other key to what it mapped to. */
  lemma {:induction false} SetGet(d: PyDict, k: string, v: PyValue, k': string)
    ensures Get(Set(d, k, v), k) == Some(v)
    ensures k' != k ==> Get(Set(d, k, v), k') == Get(d, k')
  {
    SetGetSame(d, k, v);
    if k' != k {
      SetGetOther(d, k, v, k');
    }
  }

  lemma {:induction false} SetGetSame(d: PyDict, k: string, v: PyValue)
    ensures Get(Set(d, k, v), k) == Some(v)
  {
    if d != [] && d[0].0 != k {
      SetGetSame(d[1..], k, v);
      SetTail(d, k, v);
    }
  }

  lemma {:induction false} SetGetOther(d: PyDict, k: string, v: PyValue, k': string)
    requires k' != k
    ensures Get(Set(d, k, v), k') == Get(d, k')
  {
    if d != [] && d[0].0 != k {
      SetGetOther(d[1..], k, v, k');
      SetTail(d, k, v);
    }
  }

  /** Past a first item with another key, assigning works on the rest. */
  lemma SetTail(d: PyDict, k: string, v: PyValue)
    requires d != [] && d[0].0 != k
    ensures Set(d, k, v)[0] == d[0] && Set(d, k, v)[1..] == Set(d[1..], k, v)
  {
    assert Set(d, k, v) == [d[0]] + Set(d[1..], k, v);
  }

  /** `dataclasses.asdict(intent)`: one item per field, in declaration order. */
  function AsDict(i: ExecutionIntent): (d: PyDict)
    ensures Keys(d) == FieldNames
  {
    [ ("intent_id", PyStr(i.intentId)),
      ("timestamp", if i.timestamp.Some? then PyDateTime(i.timestamp.value) else PyNone),
      ("symbol", PyStr(i.symbol)),
      ("side", PyStr(SideValue(i.side))),
      ("order_type", PyStr(OrderTypeValue(i.orderType))),
      ("quantity", PyFloat(i.quantity)),
      ("stop_loss", OptionalFloat(i.stopLoss)),
      ("take_profit", OptionalFloat(i.takeProfit)),
      ("time_in_force", PyStr(i.timeInForce)),
      ("policy_hash", PyStr(i.policyHash)),
      ("mode", PyStr(ModeValue(i.mode))) ]
  }

  function OptionalFloat(f: Option<Float>): PyValue {
    if f.Some? then PyFloat(f.value) else PyNone
  }

  /**
   * `timestamp = data.get("timestamp")`; when it is not `None` it is replaced
   * by `timestamp.isoformat()`, which only a `datetime` has.
   */
  function StampTimestamp(d: PyDict): (r: Result<PyDict, PyError>)
    ensures Get(d, "timestamp").None? || Get(d, "timestamp") == Some(PyNone) ==> r == Ok(d)
    ensures (Get(d, "timestamp").Some? && Get(d, "timestamp").value.PyDateTime?) ==>
              r.Ok? && Get(r.value, "timestamp") == Some(PyStr(IsoFormat(Get(d, "timestamp").value.dt)))
    ensures (Get(d, "timestamp").Some? && (Get(d, "timestamp").value.PyStr? || Get(d, "timestamp").value.PyFloat?)) ==>
              r == Err(AttributeError)
    ensures r.Ok? ==> Keys(r.value) == Keys(d)
    ensures r.Ok? ==> forall k :: k != "timestamp" ==> Get(r.value, k) == Get(d, k)
    ensures r.Ok? ==> forall i :: 0 <= i < |d| && d[i].0 != "timestamp" ==> r.value[i] == d[i]
  {
    var ts := Get(d, "timestamp");
    if ts.None? || ts.value.PyNone? then Ok(d)
    else if ts.value.PyDateTime? then
      var text := PyStr(IsoFormat(ts.value.dt));
      assert forall k :: k != "timestamp" ==> Get(Set(d, "timestamp", text), k) == Get(d, k) by {
        forall k | k != "timestamp" {
          SetGet(d, "timestamp", text, k);
        }
      }
      SetGet(d, "timestamp", text, "timestamp");
      Ok(Set(d, "timestamp", text))
    else Err(AttributeError)
  }

  /** The JSON value `json.dumps` writes for a Python value. */
  function ToJsonValue(v: PyValue): (r: Result<Json, PyError>)
    ensures r.Err? <==> v.PyDateTime?
  {
    match v
    case PyNone => Ok(JNull)
    case PyStr(s) => Ok(JString(s))
    case PyFloat(f) => Ok(JNumber(f))
    case PyDateTime(_) => Err(TypeError)
  }

  /** A dict as JSON members; a `datetime` value is not serializable. */
  function ToJson(d: PyDict): (r: Result<seq<Member>, PyError>)
    ensures r.Ok? <==> forall i :: 0 <= i < |d| ==> !d[i].1.PyDateTime?
    ensures r.Ok? ==> |r.value| == |d|
    ensures r.Ok? ==> forall i :: 0 <= i < |d| ==> r.value[i] == (d[i].0, ToJsonValue(d[i].1).value)
  {
    if d == [] then Ok([])
    else
      var v :- ToJsonValue(d[0].1);
      var rest :- ToJson(d[1..]);
      Ok([(d[0].0, v)] + rest)
  }

  /** `json.dumps(data, separators=(",", ":"))`. */
  function JsonDumps(d: PyDict): (r: Result<string, PyError>)
    ensures r.Ok? <==> forall i :: 0 <= i < |d| ==> !d[i].1.PyDateTime?
  {
    var ms :- ToJson(d);
    Ok(Dumps(ms))
  }

  /**
   * `serialize_intent`; it never raises for an intent, and its text is the
   * compact object of the intent's eleven members.
   */
  function SerializeIntent(i: ExecutionIntent): (s: string)
    ensures s == Dumps(IntentMembers(i))
  {
    StampAsDict(i);
    JsonDumps(StampTimestamp(AsDict(i)).value).value
  }

  function TimestampJson(t: Option<DateTime>): Json {
    if t.Some? then JString(IsoFormat(t.value)) else JNull
  }

  function FloatJson(f: Option<Float>): Json {
    if f.Some? then JNumber(f.value) else JNull
  }

  /** The members of the object `serialize_intent` writes for `i`. */
  function IntentMembers(i: ExecutionIntent): seq<Member> {
    [ ("intent_id", JString(i.intentId)),
      ("timestamp", TimestampJson(i.timestamp)),
      ("symbol", JString(i.symbol)),
      ("side", JString(SideValue(i.side))),
      ("order_type", JString(OrderTypeValue(i.orderType))),
      ("quantity", JNumber(i.quantity)),
      ("stop_loss", FloatJson(i.stopLoss)),
      ("take_profit", FloatJson(i.takeProfit)),
      ("time_in_force", JString(i.timeInForce)),
      ("policy_hash", JString(i.policyHash)),
      ("mode", JString(ModeValue(i.mode))) ]
  }

  /** The dict after its timestamp is replaced by text. */
  function StampedDict(i: ExecutionIntent): PyDict {
    [ ("intent_id", PyStr(i.intentId)),
      ("timestamp", TimestampValue(i.timestamp)),
      ("symbol", PyStr(i.symbol)),
      ("side", PyStr(SideValue(i.side))),
      ("order_type", PyStr(OrderTypeValue(i.orderType))),
      ("quantity", PyFloat(i.quantity)),
      ("stop_loss", OptionalFloat(i.stopLoss)),
      ("take_profit", OptionalFloat(i.takeProfit)),
      ("time_in_force", PyStr(i.timeInForce)),
      ("policy_hash", PyStr(i.policyHash)),
      ("mode", PyStr(ModeValue(i.mode))) ]
  }

  lemma GetTimestamp(d: PyDict)
    requires |d| >= 2 && d[0].0 != "timestamp" && d[1].0 == "timestamp"
    ensures Get(d, "timestamp") == Some(d[1].1)
  {
    assert d[1..][0] == d[1];
  }

  lemma SetTimestamp(d: PyDict, v: PyValue)
    requires |d| >= 2 && d[0].0 != "timestamp" && d[1].0 == "timestamp"
    ensures Set(d, "timestamp", v) == [d[0], ("timestamp", v)] + d[2..]
  {
    assert d[1..][0] == d[1];
    assert d[1..][1..] == d[2..];
  }

  lemma StampOf(i: ExecutionIntent)
    ensures StampTimestamp(AsDict(i)) == Ok(StampedDict(i))
  {
    if i.timestamp.Some? {
      var v := PyStr(IsoFormat(i.timestamp.value));
      StampSelectsSet(i);
      SetTimestamp(AsDict(i), v);
      SetGivesStamped(i);
    } else {
      GetTimestamp(AsDict(i));
      assert AsDict(i) == StampedDict(i);
    }
  }

  lemma StampSelectsSet(i: ExecutionIntent)
    requires i.timestamp.Some?
    ensures StampTimestamp(AsDict(i)) == Ok(Set(AsDict(i), "timestamp", PyStr(IsoFormat(i.timestamp.value))))
  {
    GetTimestamp(AsDict(i));
  }

  lemma SetGivesStamped(i: ExecutionIntent)
    requires i.timestamp.Some?
    ensures [AsDict(i)[0], ("timestamp", PyStr(IsoFormat(i.timestamp.value)))] + AsDict(i)[2..] == StampedDict(i)
  {
  }

  lemma DumpsStamped(i: ExecutionIntent)
    ensures JsonDumps(StampedDict(i)) == Ok(Dumps(IntentMembers(i)))
  {
    var d, ms := StampedDict(i), IntentMembers(i);
    forall j | 0 <= j < 11
      ensures d[j].0 == ms[j].0 && ToJsonValue(d[j].1) == Ok(ms[j].1)
    {
    }
    ToJsonOf(d, ms);
  }

  /** A dict whose values each encode to the member at the same position. */
  lemma ToJsonOf(d: PyDict, ms: seq<Member>)
    requires |d| == |ms|
    requires forall j :: 0 <= j < |d| ==> d[j].0 == ms[j].0 && ToJsonValue(d[j].1) == Ok(ms[j].1)
    ensures ToJson(d) == Ok(ms)
  {
    assert ToJson(d).Ok?;
    assert ToJson(d).value == ms;
  }

  /** The stamping step succeeds on an intent's dict and leaves nothing `json.dumps` rejects. */
  lemma StampAsDict(i: ExecutionIntent)
    ensures StampTimestamp(AsDict(i)).Ok?
    ensures JsonDumps(StampTimestamp(AsDict(i)).value) == Ok(Dumps(IntentMembers(i)))
  {
    StampOf(i);
    DumpsStamped(i);
  }

  function TimestampValue(t: Option<DateTime>): PyValue {
    if t.Some? then PyStr(IsoFormat(t.value)) else PyNone
  }

  // ---------------------------------------------------------------- reading

  function AsString(v: Json): Option<string> {
    if v.JString? then Some(v.str) else None
  }

  function AsFloat(v: Json): Option<Float> {
    if v.JNumber? then Some(v.num) else None
  }

  /** `null` is an absent price; a number is present. */
  function AsOptionalFloat(v: Json): Option<Option<Float>> {
    match v
    case JNull => Some(None)
    case JNumber(f) => Some(Some(f))
    case JString(_) => None
  }

  function AsTimestamp(v: Json): Option<Option<DateTime>> {
    match v
    case JNull => Some(None)
    case JString(s) =>
      var d :- ParseIsoFormat(s);
      Some(Some(d))
    case JNumber(_) => None
  }

  /** An intent from an object with exactly the intent's fields, in order. */
  function FromMembers(ms: seq<Member>): (r: Option<ExecutionIntent>)
    ensures r.Some? ==> Keys(ms) == FieldNames
  {
    if Keys(ms) != FieldNames then None
    else
      var id :- AsString(ms[0].1);
      var ts :- AsTimestamp(ms[1].1);
      var symbol :- AsString(ms[2].1);
      var sideText :- AsString(ms[3].1);
      var side :- SideFromValue(sideText);
      var typeText :- AsString(ms[4].1);
      var orderType :- OrderTypeFromValue(typeText);
      var quantity :- AsFloat(ms[5].1);
      var stopLoss :- AsOptionalFloat(ms[6].1);
      var takeProfit :- AsOptionalFloat(ms[7].1);
      var tif :- AsString(ms[8].1);
      var hash :- AsString(ms[9].1);
      var modeText :- AsString(ms[10].1);
      var mode :- ModeFromValue(modeText);
      Some(ExecutionIntent(id, ts, symbol, side, orderType, quantity, stopLoss, takeProfit, tif, hash, mode))
  }

  function DecodeIntent(s: string): Option<ExecutionIntent> {
    var ms :- ParseObject(s);
    FromMembers(ms)
  }

  // ---------------------------------------------------------------- properties

  lemma IntentMembersKeys(i: ExecutionIntent)
    ensures Keys(IntentMembers(i)) == FieldNames
  {
    var ms := IntentMembers(i);
    forall j | 0 <= j < 11
      ensures ms[j].0 == FieldNames[j]
    {
    }
    KeysOf(ms, FieldNames);
  }

  lemma FromIntentMembers(i: ExecutionIntent)
    ensures FromMembers(IntentMembers(i)) == Some(i)
  {
    IntentMembersKeys(i);
    AsTimestampOf(i.timestamp);
  }

  lemma AsTimestampOf(t: Option<DateTime>)
    ensures AsTimestamp(TimestampJson(t)) == Some(t)
  {
    if t.Some? {
      ParseIsoFormatOf(t.value);
    }
  }

  /** Decoding the serialized text gives the intent back. */
  lemma DecodeSerialize(i: ExecutionIntent)
    ensures DecodeIntent(SerializeIntent(i)) == Some(i)
  {
    ParseDumps(IntentMembers(i));
    FromIntentMembers(i);
  }

  /** Distinct intents never share a serialization. */
  lemma SerializeInjective(i: ExecutionIntent, j: ExecutionIntent)
    requires SerializeIntent(i) == SerializeIntent(j)
    ensures i == j
  {
    DecodeSerialize(i);
    DecodeSerialize(j);
  }

  /** The text is one JSON object whose keys are the intent's fields in declaration order. */
  lemma SerializedFieldOrder(i: ExecutionIntent)
    ensures ParseObject(SerializeIntent(i)).Some?
    ensures Keys(ParseObject(SerializeIntent(i)).value) == FieldNames
  {
    ParseDumps(IntentMembers(i));
    IntentMembersKeys(i);
  }

  /**
   * The timestamp is written as `null` when absent and as its ISO-8601 text
   * otherwise; the optional prices are written as `null` exactly when absent.
   */
  lemma SerializedOptionalFields(i: ExecutionIntent)
    ensures ParseObject(SerializeIntent(i)).Some?
    ensures var ms := ParseObject(SerializeIntent(i)).value;
      |ms| == 11 &&
      (ms[1].1 == JNull <==> i.timestamp.None?) &&
      (i.timestamp.Some? ==> ms[1].1 == JString(IsoFormat(i.timestamp.value))) &&
      (ms[6].1 == JNull <==> i.stopLoss.None?) &&
      (ms[7].1 == JNull <==> i.takeProfit.None?)
  {
    SerializedMembers(i);
    MembersOptional(i);
  }

  lemma MembersOptional(i: ExecutionIntent)
    ensures var ms := IntentMembers(i);
      |ms| == 11 &&
      (ms[1].1 == JNull <==> i.timestamp.None?) &&
      (i.timestamp.Some? ==> ms[1].1 == JString(IsoFormat(i.timestamp.value))) &&
      (ms[6].1 == JNull <==> i.stopLoss.None?) &&
      (ms[7].1 == JNull <==> i.takeProfit.None?)
  {
  }

  lemma SerializedMembers(i: ExecutionIntent)
    ensures ParseObject(SerializeIntent(i)) == Some(IntentMembers(i))
  {
    ParseDumps(IntentMembers(i));
  }

  /**
   * The text is printable ASCII and its only spaces are those inside the
   * decoded keys and string values: the separators add no whitespace.
   */
  lemma SerializedCompact(i: ExecutionIntent)
    ensures Printable(SerializeIntent(i))
    ensures ParseObject(SerializeIntent(i)).Some?
    ensures Spaces(SerializeIntent(i)) == MemberSpaces(ParseObject(SerializeIntent(i)).value)
  {
    ParseDumps(IntentMembers(i));
    DumpsText(IntentMembers(i));
  }
}
