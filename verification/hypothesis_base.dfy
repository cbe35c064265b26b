/**
 * The hypothesis interface: the `TradeIntent` a hypothesis returns, the
 * automatic wrapping of every subclass's `on_bar`, and the diagnostic hook
 * the wrapper calls after each decision.
 */
module HypothesisBase {
  import opened Wrappers
  import opened DateTimes
  import opened MarketState

  // ---------------------------------------------------------------- intents

  datatype IntentType = BUY | SELL | CLOSE | HOLD

  /** The enum's string value. */
  function IntentTypeValue(t: IntentType): (s: string)
    ensures IntentTypeFromValue(s) == Some(t)
  {
    match t
    case BUY => "BUY"
    case SELL => "SELL"
    case CLOSE => "CLOSE"
    case HOLD => "HOLD"
  }

  /** `IntentType(s)`: only the four values name a member. */
  function IntentTypeFromValue(s: string): Option<IntentType> {
    if s == "BUY" then Some(BUY)
    else if s == "SELL" then Some(SELL)
    else if s == "CLOSE" then Some(CLOSE)
    else if s == "HOLD" then Some(HOLD)
    else None
  }

  datatype RawTradeIntent = TradeIntent(kind: IntentType, size: real)

  /** A constructed `TradeIntent`: the model validated `size > 0`. */
  type TradeIntent = t: RawTradeIntent | t.size > 0.0 witness TradeIntent(HOLD, 1.0)

  /** Errors the hypotheses raise. */
  datatype PyError = ValidationError | ZeroDivisionError | IndexError | TypeError

  /**
   * `TradeIntent(type=kind, size=size)`: construction fails validation
   * unless `size > 0`, whatever the type, HOLD included.
   */
  function NewTradeIntent(kind: IntentType, size: real := 1.0): (r: Result<TradeIntent, PyError>)
    ensures r.Ok? <==> size > 0.0
    ensures r.Ok? ==> r.value.kind == kind && r.value.size == size
    ensures r.Err? ==> r.error == ValidationError
  {
    if size > 0.0 then Ok(TradeIntent(kind, size)) else Err(ValidationError)
  }

  /** `TradeIntent(type=HOLD)` with the default size. */
  lemma DefaultSizeIntent(kind: IntentType)
    ensures NewTradeIntent(kind) == Ok(TradeIntent(kind, 1.0))
  {
  }

  /** `is_hold`: the intent's type is the one whose value is "HOLD". */
  function IsHold(t: TradeIntent): (b: bool)
    ensures b <==> IntentTypeValue(t.kind) == "HOLD"
  {
    t.kind == HOLD
  }

  // ---------------------------------------------------------------- regimes

  /** A market regime; `market/regime.py` is not part of this model. */
  datatype Regime = Regime(name: string)

  /** The inherited `allowed_regimes`: the empty list. */
  function DefaultAllowedRegimes(): seq<Regime> {
    []
  }

  /** An empty list of allowed regimes allows every regime. */
  predicate Permits(allowed: seq<Regime>, r: Regime) {
    |allowed| == 0 || r in allowed
  }

  lemma DefaultPermitsAll(r: Regime)
    ensures Permits(DefaultAllowedRegimes(), r)
  {
  }

  // ---------------------------------------------------------------- diagnostic records

  datatype Direction = LONG | SHORT | CLOSED | FLAT

  /** BUY is long, SELL short, CLOSE closes; anything else is flat. */
  function DirectionOf(t: IntentType): (d: Direction)
    ensures d == FLAT <==> t == HOLD
  {
    match t
    case BUY => LONG
    case SELL => SHORT
    case CLOSE => CLOSED
    case HOLD => FLAT
  }

  /** Distinct intent types are logged with distinct directions. */
  lemma DirectionInjective(t: IntentType, u: IntentType)
    requires DirectionOf(t) == DirectionOf(u)
    ensures t == u
  {
  }

  /** The intent's own `confidence` when it has one, otherwise its size. */
  function Confidence(confidenceAttr: Option<real>, size: real): (c: real)
    ensures confidenceAttr.None? ==> c == size
    ensures confidenceAttr.Some? ==> c == confidenceAttr.value
  {
    if confidenceAttr.Some? then confidenceAttr.value else size
  }

  /** `getattr(self, "name", getattr(self, "hypothesis_id", class name))`. */
  function DisplayName(nameAttr: Option<string>, hypothesisIdAttr: Option<string>, className: string): (n: string)
    ensures nameAttr.Some? ==> n == nameAttr.value
    ensures nameAttr.None? && hypothesisIdAttr.Some? ==> n == hypothesisIdAttr.value
    ensures nameAttr.None? && hypothesisIdAttr.None? ==> n == className
  {
    if nameAttr.Some? then nameAttr.value
    else if hypothesisIdAttr.Some? then hypothesisIdAttr.value
    else className
  }

  /** A bar's timestamp as logged: its ISO text, or `str(None)`. */
  function TimestampText(bar: Option<Bar>): (s: string)
    ensures bar.Some? && bar.value.timestamp.Some? ==> s == IsoFormat(bar.value.timestamp.value)
    ensures s == "None" <==> bar.None? || bar.value.timestamp.None?
  {
    if bar.Some? && bar.value.timestamp.Some? then IsoFormat(bar.value.timestamp.value) else "None"
  }

  /** The logger `_log_signal_intent` creates: named after the module and the class. */
  function LoggerName(className: string): (n: string)
    ensures |n| == 16 + |className| && n[..16] == "hypotheses.base." && n[16..] == className
  {
    "hypotheses.base." + className
  }

  /** One `hypothesis_signal` log line, before `%.4f` formatting. */
  datatype SignalRecord = SignalRecord(
    logger: string, name: string, timestamp: string,
    direction: Direction, confidence: real, size: real)

  /**
   * The record the diagnostic hook emits, if any: nothing unless decisions
   * are explained, the intent is present and not HOLD, and `current_bar()`
   * does not raise.
   */
  function SignalFor(explain: bool, intent: Option<TradeIntent>, bar: BarLookup,
                     confidenceAttr: Option<real>, logger: string, name: string): (r: Option<SignalRecord>)
    ensures r.Some? <==> explain && intent.Some? && !IsHold(intent.value) && bar.BarReturned?
    ensures r.Some? ==> r.value.direction == DirectionOf(intent.value.kind) && r.value.direction != FLAT
    ensures r.Some? ==> r.value.size == intent.value.size && r.value.confidence == Confidence(confidenceAttr, intent.value.size)
    ensures r.Some? ==> r.value.logger == logger && r.value.name == name && r.value.timestamp == TimestampText(bar.bar)
  {
    if !explain then None
    else if intent.None? || IsHold(intent.value) then None
    else if bar.BarRaised? then None
    else
      var t := intent.value;
      Some(SignalRecord(logger, name, TimestampText(bar.bar), DirectionOf(t.kind),
                        Confidence(confidenceAttr, t.size), t.size))
  }

  // ---------------------------------------------------------------- on_bar wrapping

  /** What a call of `on_bar` does: return an intent or `None`, or raise. */
  datatype BarOutcome = Returned(intent: Option<TradeIntent>) | Raised(error: PyError)

  /**
   * The `on_bar` attribute of a class: not callable, a plain function, or
   * the `_diagnostic_wrapped` wrapper around another one.
   */
  datatype OnBar = NotCallable | Plain(decide: MarketSnapshot -> BarOutcome) | Wrapped(inner: OnBar)

  function WrapDepth(a: OnBar): nat {
    if a.Wrapped? then 1 + WrapDepth(a.inner) else 0
  }

  /** What calling the attribute returns, wrappers aside; calling a non-callable raises. */
  function Decide(a: OnBar, m: MarketSnapshot): BarOutcome {
    match a
    case NotCallable => Raised(TypeError)
    case Plain(f) => f(m)
    case Wrapped(inner) => Decide(inner, m)
  }

  /**
   * `__init_subclass__`: a callable `on_bar` that is not already flagged
   * is replaced by a wrapper; anything else is left alone.
   */
  function InitSubclass(a: OnBar): (r: OnBar)
    ensures WrapDepth(r) <= WrapDepth(a) + 1
    ensures a.Plain? ==> r == Wrapped(a)
    ensures !a.Plain? ==> r == a
    ensures forall m :: Decide(r, m) == Decide(a, m)
  {
    if a.Plain? then Wrapped(a) else a
  }

  /** The abstract `Hypothesis.on_bar`, whose body returns `None`. */
  function AbstractOnBar(m: MarketSnapshot): BarOutcome {
    Returned(None)
  }

  /**
   * The `on_bar` that the last of a chain of subclasses of `Hypothesis`
   * ends up with. `own[i]` is what class `i` (a subclass of class `i - 1`)
   * defines in its body, if anything; `getattr` finds the nearest one.
   */
  function ClassOnBar(own: seq<Option<OnBar>>): OnBar {
    if own == [] then Plain(AbstractOnBar)
    else
      var found := if own[|own| - 1].Some? then own[|own| - 1].value else ClassOnBar(own[..|own| - 1]);
      InitSubclass(found)
  }

  /** The nearest definition of `on_bar` along the chain, as written. */
  function Written(own: seq<Option<OnBar>>): OnBar {
    if own == [] then Plain(AbstractOnBar)
    else if own[|own| - 1].Some? then own[|own| - 1].value
    else Written(own[..|own| - 1])
  }

  /**
   * However long the chain, `on_bar` is wrapped at most once, wrapped
   * exactly when it is callable, and it decides what the nearest written
   * definition decides.
   */
  lemma {:induction false} ClassOnBarWrapsOnce(own: seq<Option<OnBar>>, m: MarketSnapshot)
    requires |own| >= 1
    requires forall i :: 0 <= i < |own| && own[i].Some? ==> WrapDepth(own[i].value) <= 1
    ensures WrapDepth(ClassOnBar(own)) <= 1
    ensures ClassOnBar(own) != NotCallable ==> ClassOnBar(own).Wrapped?
    ensures Decide(ClassOnBar(own), m) == Decide(Written(own), m)
    decreases |own|
  {
    var init := own[..|own| - 1];
    if own[|own| - 1].None? {
      if init != [] {
        forall i | 0 <= i < |init| && init[i].Some?
          ensures WrapDepth(init[i].value) <= 1
        {
          assert init[i] == own[i];
        }
        ClassOnBarWrapsOnce(init, m);
      }
    }
  }

  // ---------------------------------------------------------------- hypothesis objects

  class Hypothesis {
    const className: string
    const explainDecisions: bool
    const nameAttr: Option<string>
    const hypothesisIdAttr: Option<string>
    const onBar: OnBar
    /** The cached `_diagnostic_logger`, by name. */
    var diagnosticLogger: Option<string>
    /** The records logged so far. */
    var log: seq<SignalRecord>

    ghost predicate Valid()
      reads this
    {
      WrapDepth(onBar) <= 1 &&
      (diagnosticLogger.None? || diagnosticLogger == Some(LoggerName(className)))
    }

    /** An instance of the last class of the chain `own`. */
    constructor (className: string, own: seq<Option<OnBar>>, explainDecisions: bool,
                 nameAttr: Option<string>, hypothesisIdAttr: Option<string>)
      requires |own| >= 1
      requires forall i :: 0 <= i < |own| && own[i].Some? ==> WrapDepth(own[i].value) <= 1
      ensures Valid()
      ensures this.className == className && onBar == ClassOnBar(own)
      ensures this.explainDecisions == explainDecisions
      ensures this.nameAttr == nameAttr && this.hypothesisIdAttr == hypothesisIdAttr
      ensures diagnosticLogger.None? && log == []
    {
      this.className := className;
      onBar := ClassOnBar(own);
      this.explainDecisions := explainDecisions;
      this.nameAttr := nameAttr;
      this.hypothesisIdAttr := hypothesisIdAttr;
      diagnosticLogger := None;
      log := [];
      ClassOnBarWrapsOnce(own, MarketSnapshot(0, _ => None, BarRaised));
    }

    function Name(): string
      reads this
    {
      DisplayName(nameAttr, hypothesisIdAttr, className)
    }

    /**
     * `_log_signal_intent`: emits the record `SignalFor` describes, through
     * the logger it creates on first use and reuses afterwards.
     */
    method LogSignalIntent(intent: Option<TradeIntent>, market: MarketSnapshot, confidenceAttr: Option<real>)
      requires Valid()
      modifies this
      ensures Valid()
      ensures var r := SignalFor(explainDecisions, intent, market.currentBar, confidenceAttr, LoggerName(className), Name());
        if r.None? then log == old(log) && diagnosticLogger == old(diagnosticLogger)
        else log == old(log) + [r.value] && diagnosticLogger == Some(LoggerName(className))
    {
      if !explainDecisions {
        return;
      }
      if intent.None? || IsHold(intent.value) {
        return;
      }
      if market.currentBar.BarRaised? {
        return;
      }
      var bar := market.currentBar.bar;
      var t := intent.value;
      var direction := DirectionOf(t.kind);
      var confidence := Confidence(confidenceAttr, t.size);
      var logger: string;
      if diagnosticLogger.None? {
        logger := LoggerName(className);
        diagnosticLogger := Some(logger);
      } else {
        logger := diagnosticLogger.value;
      }
      log := log + [SignalRecord(logger, Name(), TimestampText(bar), direction, confidence, t.size)];
    }

    /**
     * Calling `on_bar`: the wrapper returns exactly what the decision
     * returned, and passes it to the hook first; an exception propagates
     * and logs nothing. A `TradeIntent` has no `confidence` field.
     */
    method InvokeOnBar(market: MarketSnapshot) returns (outcome: BarOutcome)
      requires Valid()
      modifies this
      ensures Valid()
      ensures outcome == Decide(onBar, market)
      ensures onBar.Wrapped? && outcome.Returned? ==>
        var r := SignalFor(explainDecisions, outcome.intent, market.currentBar, None, LoggerName(className), Name());
        if r.None? then log == old(log) && diagnosticLogger == old(diagnosticLogger)
        else log == old(log) + [r.value] && diagnosticLogger == Some(LoggerName(className))
      ensures !(onBar.Wrapped? && outcome.Returned?) ==> log == old(log) && diagnosticLogger == old(diagnosticLogger)
    {
      match onBar
      case NotCallable =>
        outcome := Raised(TypeError);
      case Plain(f) =>
        outcome := f(market);
      case Wrapped(inner) =>
        assert WrapDepth(inner) == 0;
        match inner {
          case NotCallable =>
            outcome := Raised(TypeError);
          case Plain(f) =>
            outcome := f(market);
        }
        if outcome.Returned? {
          LogSignalIntent(outcome.intent, market, None);
        }
    }
  }
}
