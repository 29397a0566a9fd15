/** The market-data records that flow from the parsers through the dedup loop into the stores. */
module MarketData {
  import opened Bytes
  import opened Symbols

  datatype Option<+T> = None | Some(value: T)

  datatype ProductType = Spot | Futures | UMargin | CoinMargin | Options | UsdtFutures | UsdcFutures | BtcMargin

  datatype Bookticker = Bookticker(
    symbol: SymbolBuf,
    productType: ProductType,
    eventTimestampUs: u64,
    tradeTimestampUs: u64,
    updateId: u64,
    bidPrice: real,
    bidVol: real,
    askPrice: real,
    askVol: real,
    bidOrderCount: int,
    askOrderCount: int,
    localTimeUs: u64)

  datatype Trade = Trade(
    symbol: SymbolBuf,
    productType: ProductType,
    eventTimestampUs: u64,
    tradeTimestampUs: u64,
    tradeId: u64,
    price: real,
    vol: real,
    isBuyerMaker: bool,
    localTimeUs: u64)

  datatype AggTrade = AggTrade(
    symbol: SymbolBuf,
    productType: ProductType,
    eventTimestampUs: u64,
    tradeTimestampUs: u64,
    firstTradeId: u64,
    lastTradeId: u64,
    aggTradeId: u64,
    price: real,
    vol: real,
    tradeCount: int,
    isBuyerMaker: bool,
    localTimeUs: u64)

  /** The `[f64; 5]` arrays of a depth record. */
  type Five = s: seq<real> | |s| == 5 witness ZERO_FIVE

  const ZERO_FIVE: seq<real> := [0.0, 0.0, 0.0, 0.0, 0.0]

  datatype Depth5 = Depth5(
    symbol: SymbolBuf,
    productType: ProductType,
    eventTimestampUs: u64,
    tradeTimestampUs: u64,
    updateId: u64,
    bidLevel: nat,
    askLevel: nat,
    lastPrice: real,
    bidPrices: Five,
    bidVols: Five,
    askPrices: Five,
    askVols: Five,
    bidOrderCounts: seq<int>,
    askOrderCounts: seq<int>,
    localTimeUs: u64)

  const NO_ORDER_COUNTS: seq<int> := [0, 0, 0, 0, 0]

  datatype MarketDataMsg =
    | BboMsg(bbo: Bookticker)
    | TradeMsg(trade: Trade)
    | AggTradeMsg(agg: AggTrade)
    | Depth5Msg(depth: Depth5)
}
