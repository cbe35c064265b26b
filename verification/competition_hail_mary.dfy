/**
 * `CompetitionHailMary`: after a warm-up it always trades, going with the
 * EMA momentum unless an RSI extreme confirmed by the last candle
 * overrides it. The indicator values themselves (EMA, RSI, ATR) are
 * supplied by an uninterpreted function of the recent bars.
 */
module CompetitionHailMary {
  import opened Wrappers
  import opened Dicts
  import opened MarketState
  import opened HypothesisBase

  /** The constructor's ten parameters. */
  datatype Config = Config(
    lookback: int, atrMult: real, minBodyRatio: real,
    fastPeriod: int, slowPeriod: int, rocPeriod: int, rocThreshold: real,
    rsiPeriod: int, rsiOversold: real, rsiOverbought: real)

  function DefaultConfig(): Config {
    Config(14, 1.0, 0.35, 5, 13, 3, 0.001, 7, 20.0, 80.0)
  }

  const HypothesisId: string := "competition_hail_mary"

  /** No regime gating. */
  function AllowedRegimes(): seq<Regime> {
    []
  }

  lemma TradesInEveryRegime(r: Regime)
    ensures Permits(AllowedRegimes(), r)
  {
  }

  // ---------------------------------------------------------------- parameters

  datatype ParamValue = IntParam(i: int) | RealParam(r: real)

  const ParameterNames: seq<string> := [
    "lookback", "atr_mult", "min_body_ratio", "fast_period", "slow_period",
    "roc_period", "roc_threshold", "rsi_period", "rsi_oversold", "rsi_overbought"]

  /** `parameters`: every constructor value under its name, in order. */
  function Parameters(cfg: Config): (ps: seq<(string, ParamValue)>)
    ensures Keys(ps) == ParameterNames
  {
    [ ("lookback", IntParam(cfg.lookback)),
      ("atr_mult", RealParam(cfg.atrMult)),
      ("min_body_ratio", RealParam(cfg.minBodyRatio)),
      ("fast_period", IntParam(cfg.fastPeriod)),
      ("slow_period", IntParam(cfg.slowPeriod)),
      ("roc_period", IntParam(cfg.rocPeriod)),
      ("roc_threshold", RealParam(cfg.rocThreshold)),
      ("rsi_period", IntParam(cfg.rsiPeriod)),
      ("rsi_oversold", RealParam(cfg.rsiOversold)),
      ("rsi_overbought", RealParam(cfg.rsiOverbought)) ]
  }

  /** Rebuilds a configuration from a parameters dict, as an experiment tracker would. */
  function FromParameters(ps: seq<(string, ParamValue)>): Option<Config> {
    if |ps| != 10 || Keys(ps) != ParameterNames then None
    else if !(ps[0].1.IntParam? && ps[3].1.IntParam? && ps[4].1.IntParam? && ps[5].1.IntParam? && ps[7].1.IntParam?) then None
    else if !(ps[1].1.RealParam? && ps[2].1.RealParam? && ps[6].1.RealParam? && ps[8].1.RealParam? && ps[9].1.RealParam?) then None
    else Some(Config(ps[0].1.i, ps[1].1.r, ps[2].1.r, ps[3].1.i, ps[4].1.i,
                     ps[5].1.i, ps[6].1.r, ps[7].1.i, ps[8].1.r, ps[9].1.r))
  }

  /** The parameters determine the configuration. */
  lemma ParametersRoundTrip(cfg: Config)
    ensures FromParameters(Parameters(cfg)) == Some(cfg)
  {
  }

  lemma ParametersInjective(a: Config, b: Config)
    requires Parameters(a) == Parameters(b)
    ensures a == b
  {
    ParametersRoundTrip(a);
    ParametersRoundTrip(b);
  }

  // ---------------------------------------------------------------- decision

  function Max(a: int, b: int): int {
    if a >= b then a else b
  }

  /** `max(lookback, slow_period) + 10`. */
  function RequiredBars(cfg: Config): (n: int)
    ensures n >= cfg.lookback + 10 && n >= cfg.slowPeriod + 10
    ensures n == cfg.lookback + 10 || n == cfg.slowPeriod + 10
  {
    Max(cfg.lookback, cfg.slowPeriod) + 10
  }

  /** The last values of the fast and slow EMA of the closes, and the RSI. */
  datatype Indicators = Indicators(fastEma: real, slowEma: real, rsi: real)

  /** An RSI below the oversold level on a rising candle. */
  predicate Oversold(cfg: Config, ind: Indicators, open: real, close: real) {
    ind.rsi < cfg.rsiOversold && close > open
  }

  /** An RSI above the overbought level on a falling candle. */
  predicate Overbought(cfg: Config, ind: Indicators, open: real, close: real) {
    ind.rsi > cfg.rsiOverbought && close < open
  }

  /**
   * The signal: momentum first, then the oversold override, and only when
   * that did not fire, the overbought one.
   */
  function Signal(cfg: Config, ind: Indicators, open: real, close: real): (t: IntentType)
    ensures t == BUY || t == SELL
    ensures Oversold(cfg, ind, open, close) ==> t == BUY
    ensures !Oversold(cfg, ind, open, close) && Overbought(cfg, ind, open, close) ==> t == SELL
    ensures !Oversold(cfg, ind, open, close) && !Overbought(cfg, ind, open, close) ==>
              (t == BUY <==> ind.fastEma > ind.slowEma)
  {
    var momentum := if ind.fastEma > ind.slowEma then BUY else SELL;
    if Oversold(cfg, ind, open, close) then BUY
    else if Overbought(cfg, ind, open, close) then SELL
    else momentum
  }

  /** The same rule with the overbought check first. */
  function SignalOverboughtFirst(cfg: Config, ind: Indicators, open: real, close: real): IntentType {
    if Overbought(cfg, ind, open, close) then SELL
    else if Oversold(cfg, ind, open, close) then BUY
    else if ind.fastEma > ind.slowEma then BUY
    else SELL
  }

  /** One candle cannot both rise and fall, so the order of the two overrides does not matter. */
  lemma OverrideOrderIrrelevant(cfg: Config, ind: Indicators, open: real, close: real)
    ensures Signal(cfg, ind, open, close) == SignalOverboughtFirst(cfg, ind, open, close)
  {
  }

  /** Under an override the EMAs do not matter. */
  lemma OverrideIgnoresMomentum(cfg: Config, a: Indicators, b: Indicators, open: real, close: real)
    requires a.rsi == b.rsi
    requires Oversold(cfg, a, open, close) || Overbought(cfg, a, open, close)
    ensures Signal(cfg, a, open, close) == Signal(cfg, b, open, close)
  {
  }

  function HoldIntent(): TradeIntent {
    TradeIntent(HOLD, 1.0)
  }

  /**
   * `on_bar`, given the indicator values the recent bars produce. Past
   * the warm-up, `_ema` divides by `period + 1` and reads the first and
   * the second-to-last value, so a period of -1 or fewer than two bars
   * raises. `_calculate_rsi` then runs Wilder's loop from `rsi_period` to
   * the number of price changes: a negative period skips its early return,
   * and one below `1 - len(bars)` indexes the gains out of range.
   */
  function OnBar(cfg: Config, m: MarketSnapshot, indicators: (Config, seq<Bar>) -> Indicators): (r: BarOutcome)
    ensures r.Returned? ==> r.intent.Some? && r.intent.value.size == 1.0 && r.intent.value.kind != CLOSE
    ensures r.Raised? ==>
              (r.error == ZeroDivisionError && (cfg.fastPeriod == -1 || cfg.slowPeriod == -1)) ||
              (r.error == IndexError && (RequiredBars(cfg) <= 1 || cfg.rsiPeriod < 1 - RequiredBars(cfg)))
  {
    var required := RequiredBars(cfg);
    if m.barCount < required then Returned(Some(HoldIntent()))
    else
      var bars := m.recentBars(required);
      if bars.None? || |bars.value| < required then Returned(Some(HoldIntent()))
      else
        var bs := bars.value;
        if cfg.fastPeriod == -1 then Raised(ZeroDivisionError)
        else if |bs| == 0 then Raised(IndexError)
        else if cfg.slowPeriod == -1 then Raised(ZeroDivisionError)
        else if |bs| < 2 then Raised(IndexError)
        else if cfg.rsiPeriod < 1 - |bs| then Raised(IndexError)
        else
          var last := bs[|bs| - 1];
          Returned(Some(TradeIntent(Signal(cfg, indicators(cfg, bs), last.open, last.close), 1.0)))
  }

  /** Too few bars so far: HOLD. */
  lemma WarmupHolds(cfg: Config, m: MarketSnapshot, indicators: (Config, seq<Bar>) -> Indicators)
    requires m.barCount < RequiredBars(cfg)
    ensures OnBar(cfg, m, indicators) == Returned(Some(TradeIntent(HOLD, 1.0)))
  {
  }

  /** No recent bars, or fewer than required: HOLD. */
  lemma ShortHistoryHolds(cfg: Config, m: MarketSnapshot, indicators: (Config, seq<Bar>) -> Indicators)
    requires m.recentBars(RequiredBars(cfg)).None? || |m.recentBars(RequiredBars(cfg)).value| < RequiredBars(cfg)
    ensures OnBar(cfg, m, indicators) == Returned(Some(TradeIntent(HOLD, 1.0)))
  {
  }

  /**
   * Past both gates, with periods other than -1, at least two bars and an
   * RSI period the gains can be indexed with, the result is a full-size BUY
   * or SELL given by the signal rule on the last candle.
   */
  lemma PastWarmupTrades(cfg: Config, m: MarketSnapshot, indicators: (Config, seq<Bar>) -> Indicators)
    requires m.barCount >= RequiredBars(cfg)
    requires m.recentBars(RequiredBars(cfg)).Some?
    requires |m.recentBars(RequiredBars(cfg)).value| >= Max(RequiredBars(cfg), 2)
    requires cfg.fastPeriod != -1 && cfg.slowPeriod != -1
    requires cfg.rsiPeriod >= 1 - |m.recentBars(RequiredBars(cfg)).value|
    ensures var bs := m.recentBars(RequiredBars(cfg)).value;
      var last := bs[|bs| - 1];
      OnBar(cfg, m, indicators) == Returned(Some(TradeIntent(Signal(cfg, indicators(cfg, bs), last.open, last.close), 1.0)))
    ensures OnBar(cfg, m, indicators).intent.value.kind in {BUY, SELL}
  {
  }

  /**
   * Past both gates, with periods other than -1 and at least two bars, an
   * RSI period below `1 - len(bars)` makes Wilder's loop read `gains[i]`
   * out of range.
   */
  lemma RsiPeriodOutOfRange(cfg: Config, m: MarketSnapshot, indicators: (Config, seq<Bar>) -> Indicators)
    requires m.barCount >= RequiredBars(cfg)
    requires m.recentBars(RequiredBars(cfg)).Some?
    requires |m.recentBars(RequiredBars(cfg)).value| >= Max(RequiredBars(cfg), 2)
    requires cfg.fastPeriod != -1 && cfg.slowPeriod != -1
    requires cfg.rsiPeriod < 1 - |m.recentBars(RequiredBars(cfg)).value|
    ensures OnBar(cfg, m, indicators) == Raised(IndexError)
  {
  }

  /** With the default parameters `on_bar` never raises and never returns `None`. */
  lemma DefaultsNeverRaise(m: MarketSnapshot, indicators: (Config, seq<Bar>) -> Indicators)
    ensures OnBar(DefaultConfig(), m, indicators).Returned?
    ensures OnBar(DefaultConfig(), m, indicators).intent.Some?
  {
  }

  // ---------------------------------------------------------------- as a hypothesis

  /** The `on_bar` the class body defines. */
  function HailMaryOnBar(cfg: Config, indicators: (Config, seq<Bar>) -> Indicators): OnBar {
    Plain(m => OnBar(cfg, m, indicators))
  }

  /**
   * Defining the class wraps its `on_bar` once; the wrapped method decides
   * exactly as the body does, and logs under the hypothesis id.
   */
  lemma HailMaryWrapped(cfg: Config, indicators: (Config, seq<Bar>) -> Indicators, m: MarketSnapshot)
    ensures ClassOnBar([Some(HailMaryOnBar(cfg, indicators))]) == Wrapped(HailMaryOnBar(cfg, indicators))
    ensures Decide(ClassOnBar([Some(HailMaryOnBar(cfg, indicators))]), m) == OnBar(cfg, m, indicators)
    ensures DisplayName(None, Some(HypothesisId), "CompetitionHailMary") == "competition_hail_mary"
  {
    ClassOnBarWrapsOnce([Some(HailMaryOnBar(cfg, indicators))], m);
  }
}
