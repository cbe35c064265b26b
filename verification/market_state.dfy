/**
 * The read-only market view the hypotheses query. `state/market_state.py`
 * is not part of this model; the snapshot records what its three queries
 * answer on one bar.
 */
module MarketState {
  import opened Wrappers
  import opened DateTimes

  datatype Bar = Bar(open: real, high: real, low: real, close: real, timestamp: Option<DateTime>, symbol: string)

  /** What `current_bar()` does: returns a bar (or `None`), or raises. */
  datatype BarLookup = BarReturned(bar: Option<Bar>) | BarRaised

  /**
   * `bar_count()`, `recent_bars(n)` for every `n`, and `current_bar()`, as
   * the market state answers them while one bar is processed.
   */
  datatype MarketSnapshot = MarketSnapshot(
    barCount: int,
    recentBars: int -> Option<seq<Bar>>,
    currentBar: BarLookup)
}
