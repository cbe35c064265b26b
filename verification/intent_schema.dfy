/**
 * The execution intent: the immutable, eleven-field record that crosses
 * from signal generation to the execution engine. A Dafny datatype value
 * cannot be changed in place; an "update" `i.(quantity := q)` is a new value,
 * as with the frozen dataclass.
 */
module IntentSchema {
  import opened Wrappers
  import opened Floats
  import opened DateTimes

  /** `Literal["BUY", "SELL"]`. */
  datatype Side = BUY | SELL

  /** `Literal["MARKET"]`. */
  datatype OrderType = MARKET

  /** `Literal["PAPER", "LIVE"]`. */
  datatype Mode = PAPER | LIVE

  datatype ExecutionIntent = ExecutionIntent(
    intentId: string,
    timestamp: Option<DateTime>,
    symbol: string,
    side: Side,
    orderType: OrderType,
    quantity: Float,
    stopLoss: Option<Float>,
    takeProfit: Option<Float>,
    timeInForce: string,
    policyHash: string,
    mode: Mode)

  /** The dataclass fields, in declaration order. */
  const FieldNames: seq<string> := [
    "intent_id", "timestamp", "symbol", "side", "order_type", "quantity",
    "stop_loss", "take_profit", "time_in_force", "policy_hash", "mode"]

  lemma FieldNamesDistinct()
    ensures |FieldNames| == 11
    ensures forall i, j :: 0 <= i < j < |FieldNames| ==> FieldNames[i] != FieldNames[j]
  {
  }

  /** The string each literal stands for. */
  function SideValue(s: Side): (v: string)
    ensures SideFromValue(v) == Some(s)
  {
    match s
    case BUY => "BUY"
    case SELL => "SELL"
  }

  function SideFromValue(v: string): (r: Option<Side>)
    ensures r.Some? ==> v == (if r.value == BUY then "BUY" else "SELL")
  {
    if v == "BUY" then Some(BUY) else if v == "SELL" then Some(SELL) else None
  }

  function OrderTypeValue(o: OrderType): (v: string)
    ensures OrderTypeFromValue(v) == Some(o)
  {
    match o
    case MARKET => "MARKET"
  }

  function OrderTypeFromValue(v: string): (r: Option<OrderType>)
    ensures r.Some? <==> v == "MARKET"
  {
    if v == "MARKET" then Some(MARKET) else None
  }

  function ModeValue(m: Mode): (v: string)
    ensures ModeFromValue(v) == Some(m)
  {
    match m
    case PAPER => "PAPER"
    case LIVE => "LIVE"
  }

  function ModeFromValue(v: string): (r: Option<Mode>)
    ensures r.Some? ==> v == (if r.value == PAPER then "PAPER" else "LIVE")
  {
    if v == "PAPER" then Some(PAPER) else if v == "LIVE" then Some(LIVE) else None
  }
}
