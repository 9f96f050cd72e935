/** Recorded price rows. */
module MarketData {
  import opened Wrappers
  import opened DepthCalibration
  import opened Timeline

  datatype PriceSource = Candle | Book

  datatype Tick = Tick(source: PriceSource, yesPrice: Option<real>, quote: Quote)
  {
    /** Midpoint of the quotes, or the last trade when unquoted. */
    function Mid(): Option<real> {
      if quote.yesBid.Some? && quote.yesAsk.Some? then Some((quote.yesBid.value + quote.yesAsk.value) / 2.0)
      else yesPrice
    }
  }

  type PriceTick = Timed<Tick>
}
