/** Byte images of the four records, as a store's rings hold them: a symbol buffer and 64-bit words, prices and
    volumes in units of 10^-8. They are one example of the images that the stores are proved for, and show
    that the loop's requirements can be met by stores of all four kinds at once. */
module RecordImages {
  import opened Bytes
  import opened Symbols
  import opened MarketData
  import opened ShmLayout
  import opened ShmStore
  import opened DedupWorker
  import opened DedupEndToEnd
  import opened DedupRings

  // ---------------------------------------------------------------------------
  // Records of words
  // ---------------------------------------------------------------------------

  /** A record of `n` words behind its symbol. */
  function RecordBytes(symbol: SymbolBuf, ws: seq<u64>): (s: seq<byte>)
    ensures |s| == SYMBOL_LEN + 8 * |ws|
  {
    symbol + WordBytes(ws)
  }

  function SymbolIn(s: seq<byte>): SymbolBuf {
    if |s| < SYMBOL_LEN then Zeros(SYMBOL_LEN) else s[..SYMBOL_LEN]
  }

  function WordsIn(s: seq<byte>, n: nat): (ws: seq<u64>)
    ensures |ws| == n
  {
    seq(n, k requires 0 <= k < n => if SYMBOL_LEN + 8 * k + 8 <= |s| then WordAt(s[SYMBOL_LEN..], k) else 0)
  }

  lemma RecordReadsBack(symbol: SymbolBuf, ws: seq<u64>)
    ensures SymbolIn(RecordBytes(symbol, ws)) == symbol && WordsIn(RecordBytes(symbol, ws), |ws|) == ws
  {
    var s := RecordBytes(symbol, ws);
    assert s[SYMBOL_LEN..] == WordBytes(ws);
    forall k | 0 <= k < |ws|
      ensures WordsIn(s, |ws|)[k] == ws[k]
    {
      WordReadsBack(ws, k);
    }
  }

  // ---------------------------------------------------------------------------
  // Fields
  // ---------------------------------------------------------------------------

  function IntWord(v: int): u64 {
    if -0x8000_0000_0000_0000 <= v < 0x8000_0000_0000_0000 then U64OfI64(v) else 0
  }

  function WordInt(w: u64): int {
    I64OfU64(w)
  }

  function RealWord(x: real): u64 {
    IntWord((x * 100000000.0).Floor)
  }

  function WordReal(w: u64): real {
    I64OfU64(w) as real / 100000000.0
  }

  /** A number that the units represent. */
  predicate Fits(x: real) {
    WordReal(RealWord(x)) == x
  }

  predicate FitsInt(v: int) {
    WordInt(IntWord(v)) == v
  }

  lemma UnitsFit(t: i64)
    ensures Fits(t as real / 100000000.0) && FitsInt(t)
  {
  }

  function ProductWord(p: ProductType): u64 {
    match p
    case Spot => 0
    case Futures => 1
    case UMargin => 2
    case CoinMargin => 3
    case Options => 4
    case UsdtFutures => 5
    case UsdcFutures => 6
    case BtcMargin => 7
  }

  function WordProduct(w: u64): ProductType {
    if w == 0 then Spot else if w == 1 then Futures else if w == 2 then UMargin else if w == 3 then CoinMargin
    else if w == 4 then Options else if w == 5 then UsdtFutures else if w == 6 then UsdcFutures else BtcMargin
  }

  function BoolWord(b: bool): u64 {
    if b then 1 else 0
  }

  // ---------------------------------------------------------------------------
  // Records
  // ---------------------------------------------------------------------------

  function BboWords(b: Bookticker): (ws: seq<u64>)
    ensures |ws| == 11
  {
    [ProductWord(b.productType), b.eventTimestampUs, b.tradeTimestampUs, b.updateId, RealWord(b.bidPrice),
     RealWord(b.bidVol), RealWord(b.askPrice), RealWord(b.askVol), IntWord(b.bidOrderCount),
     IntWord(b.askOrderCount), b.localTimeUs]
  }

  function BboFrom(symbol: SymbolBuf, ws: seq<u64>): Bookticker
    requires |ws| == 11
  {
    Bookticker(symbol, WordProduct(ws[0]), ws[1], ws[2], ws[3], WordReal(ws[4]), WordReal(ws[5]), WordReal(ws[6]),
               WordReal(ws[7]), WordInt(ws[8]), WordInt(ws[9]), ws[10])
  }

  const BBO_IMAGE: Image<Bookticker> := Image(
    SYMBOL_LEN + 88,
    (b: Bookticker) => RecordBytes(b.symbol, BboWords(b)),
    (s: seq<byte>) => BboFrom(SymbolIn(s), WordsIn(s, 11)))

  predicate BboFits(b: Bookticker) {
    && Fits(b.bidPrice) && Fits(b.bidVol) && Fits(b.askPrice) && Fits(b.askVol)
    && FitsInt(b.bidOrderCount) && FitsInt(b.askOrderCount)
  }

  lemma BboReadsBack(b: Bookticker)
    requires BboFits(b)
    ensures BboFrom(b.symbol, BboWords(b)) == b
  {
  }

  /** A record whose numbers the units represent comes back from its bytes. */
  lemma BboKept(b: Bookticker)
    requires BboFits(b)
    ensures BBO_IMAGE.Kept(b) == b
  {
    RecordReadsBack(b.symbol, BboWords(b));
    BboReadsBack(b);
  }

  function AggWords(a: AggTrade): (ws: seq<u64>)
    ensures |ws| == 11
  {
    [ProductWord(a.productType), a.eventTimestampUs, a.tradeTimestampUs, a.firstTradeId, a.lastTradeId, a.aggTradeId,
     RealWord(a.price), RealWord(a.vol), IntWord(a.tradeCount), BoolWord(a.isBuyerMaker), a.localTimeUs]
  }

  function AggFrom(symbol: SymbolBuf, ws: seq<u64>): AggTrade
    requires |ws| == 11
  {
    AggTrade(symbol, WordProduct(ws[0]), ws[1], ws[2], ws[3], ws[4], ws[5], WordReal(ws[6]), WordReal(ws[7]),
             WordInt(ws[8]), ws[9] != 0, ws[10])
  }

  const AGG_IMAGE: Image<AggTrade> := Image(
    SYMBOL_LEN + 88,
    (a: AggTrade) => RecordBytes(a.symbol, AggWords(a)),
    (s: seq<byte>) => AggFrom(SymbolIn(s), WordsIn(s, 11)))

  predicate AggFits(a: AggTrade) {
    Fits(a.price) && Fits(a.vol) && FitsInt(a.tradeCount)
  }

  lemma AggReadsBack(a: AggTrade)
    requires AggFits(a)
    ensures AggFrom(a.symbol, AggWords(a)) == a
  {
  }

  /** A record whose numbers the units represent comes back from its bytes. */
  lemma AggKept(a: AggTrade)
    requires AggFits(a)
    ensures AGG_IMAGE.Kept(a) == a
  {
    RecordReadsBack(a.symbol, AggWords(a));
    AggReadsBack(a);
  }

  function TradeWords(t: Trade): (ws: seq<u64>)
    ensures |ws| == 8
  {
    [ProductWord(t.productType), t.eventTimestampUs, t.tradeTimestampUs, t.tradeId, RealWord(t.price), RealWord(t.vol),
     BoolWord(t.isBuyerMaker), t.localTimeUs]
  }

  function TradeFrom(symbol: SymbolBuf, ws: seq<u64>): Trade
    requires |ws| == 8
  {
    Trade(symbol, WordProduct(ws[0]), ws[1], ws[2], ws[3], WordReal(ws[4]), WordReal(ws[5]), ws[6] != 0, ws[7])
  }

  const TRADE_IMAGE: Image<Trade> := Image(
    SYMBOL_LEN + 64,
    (t: Trade) => RecordBytes(t.symbol, TradeWords(t)),
    (s: seq<byte>) => TradeFrom(SymbolIn(s), WordsIn(s, 8)))

  predicate TradeFits(t: Trade) {
    Fits(t.price) && Fits(t.vol)
  }

  lemma TradeReadsBack(t: Trade)
    requires TradeFits(t)
    ensures TradeFrom(t.symbol, TradeWords(t)) == t
  {
  }

  /** A record whose numbers the units represent comes back from its bytes. */
  lemma TradeKept(t: Trade)
    requires TradeFits(t)
    ensures TRADE_IMAGE.Kept(t) == t
  {
    RecordReadsBack(t.symbol, TradeWords(t));
    TradeReadsBack(t);
  }

  // The depth record: seven words, four rows of five numbers, two rows of five counts, one word.

  function RealWords(f: Five): (ws: seq<u64>)
    ensures |ws| == 5
  {
    seq(5, i requires 0 <= i < 5 => RealWord(f[i]))
  }

  function WordReals(ws: seq<u64>): Five
    requires |ws| == 5
  {
    seq(5, i requires 0 <= i < 5 => WordReal(ws[i]))
  }

  function IntWords(c: seq<int>): (ws: seq<u64>)
    ensures |ws| == 5
  {
    seq(5, i requires 0 <= i < 5 => if i < |c| then IntWord(c[i]) else 0)
  }

  function WordInts(ws: seq<u64>): seq<int>
    requires |ws| == 5
  {
    seq(5, i requires 0 <= i < 5 => WordInt(ws[i]))
  }

  predicate FitsFive(f: Five) {
    forall i | 0 <= i < 5 :: Fits(f[i])
  }

  predicate FitsCounts(c: seq<int>) {
    |c| == 5 && forall i | 0 <= i < 5 :: FitsInt(c[i])
  }

  function DepthRows(d: Depth5): (rows: seq<seq<u64>>)
    ensures |rows| == 6 && forall i | 0 <= i < 6 :: |rows[i]| == 5
  {
    [RealWords(d.bidPrices), RealWords(d.bidVols), RealWords(d.askPrices), RealWords(d.askVols),
     IntWords(d.bidOrderCounts), IntWords(d.askOrderCounts)]
  }

  function DepthWords(d: Depth5): (ws: seq<u64>)
    ensures |ws| == 38
  {
    var rows := DepthRows(d);
    [ProductWord(d.productType), d.eventTimestampUs, d.tradeTimestampUs, d.updateId, IntWord(d.bidLevel),
     IntWord(d.askLevel), RealWord(d.lastPrice), d.localTimeUs]
    + rows[0] + rows[1] + rows[2] + rows[3] + rows[4] + rows[5]
  }

  function LevelOf(w: u64): nat {
    if WordInt(w) < 0 then 0 else WordInt(w)
  }

  function DepthRow(ws: seq<u64>, r: nat): (row: seq<u64>)
    requires |ws| == 38 && r < 6
    ensures |row| == 5
  {
    ws[8 + 5 * r..13 + 5 * r]
  }

  function DepthFrom(symbol: SymbolBuf, ws: seq<u64>): Depth5
    requires |ws| == 38
  {
    Depth5(symbol, WordProduct(ws[0]), ws[1], ws[2], ws[3], LevelOf(ws[4]), LevelOf(ws[5]), WordReal(ws[6]),
           WordReals(DepthRow(ws, 0)), WordReals(DepthRow(ws, 1)), WordReals(DepthRow(ws, 2)),
           WordReals(DepthRow(ws, 3)), WordInts(DepthRow(ws, 4)), WordInts(DepthRow(ws, 5)), ws[7])
  }

  const DEPTH_IMAGE: Image<Depth5> := Image(
    SYMBOL_LEN + 304,
    (d: Depth5) => RecordBytes(d.symbol, DepthWords(d)),
    (s: seq<byte>) => DepthFrom(SymbolIn(s), WordsIn(s, 38)))

  predicate DepthFits(d: Depth5) {
    && FitsInt(d.bidLevel) && FitsInt(d.askLevel) && Fits(d.lastPrice)
    && FitsFive(d.bidPrices) && FitsFive(d.bidVols) && FitsFive(d.askPrices) && FitsFive(d.askVols)
    && FitsCounts(d.bidOrderCounts) && FitsCounts(d.askOrderCounts)
  }

  lemma RealsReadBack(f: Five)
    requires FitsFive(f)
    ensures WordReals(RealWords(f)) == f
  {
  }

  lemma IntsReadBack(c: seq<int>)
    requires FitsCounts(c)
    ensures WordInts(IntWords(c)) == c
  {
  }

  lemma RowsReadBack(d: Depth5, r: nat)
    requires r < 6
    ensures DepthRow(DepthWords(d), r) == DepthRows(d)[r]
  {
  }

  lemma DepthReadsBack(d: Depth5)
    requires DepthFits(d)
    ensures DepthFrom(d.symbol, DepthWords(d)) == d
  {
    RowsReadBack(d, 0);
    RowsReadBack(d, 1);
    RowsReadBack(d, 2);
    RowsReadBack(d, 3);
    RowsReadBack(d, 4);
    RowsReadBack(d, 5);
    RealsReadBack(d.bidPrices);
    RealsReadBack(d.bidVols);
    RealsReadBack(d.askPrices);
    RealsReadBack(d.askVols);
    IntsReadBack(d.bidOrderCounts);
    IntsReadBack(d.askOrderCounts);
  }

  lemma DepthKept(d: Depth5)
    requires DepthFits(d)
    ensures DEPTH_IMAGE.Kept(d) == d
  {
    RecordReadsBack(d.symbol, DepthWords(d));
    DepthReadsBack(d);
  }

  // ---------------------------------------------------------------------------
  // All four stores
  // ---------------------------------------------------------------------------

  predicate MsgFits(m: MarketDataMsg) {
    match m
    case BboMsg(b) => BboFits(b)
    case AggTradeMsg(a) => AggFits(a)
    case TradeMsg(t) => TradeFits(t)
    case Depth5Msg(d) => DepthFits(d)
  }

  ghost predicate FourStores(stores: ProductShmStores, symbols: seq<Str>) {
    && stores.bbo != null && stores.agg != null && stores.trade != null && stores.depth5 != null
    && stores.bbo.image == BBO_IMAGE && stores.agg.image == AGG_IMAGE
    && stores.trade.image == TRADE_IMAGE && stores.depth5.image == DEPTH_IMAGE
    && stores.bbo.symbols == stores.agg.symbols == stores.trade.symbols == stores.depth5.symbols == symbols
  }

  lemma ImagesSized()
    ensures BBO_IMAGE.Sized() && AGG_IMAGE.Sized() && TRADE_IMAGE.Sized() && DEPTH_IMAGE.Sized()
  {
  }

  function NoHistories<T>(symbols: seq<Str>): map<Str, seq<T>> {
    map s | s in symbols :: []
  }

  function NothingStored(symbols: seq<Str>): Stored {
    Stored(NoHistories(symbols), NoHistories(symbols), NoHistories(symbols), NoHistories(symbols))
  }

  lemma NothingStoredHasRoom(symbols: seq<Str>, n: nat)
    requires n <= I64_MAX
    ensures Unwritten(NothingStored(symbols)) && RoomAll(NothingStored(symbols), n)
  {
  }

  method NewStore<T(!new)>(image: Image<T>, symbols: seq<Str>, bufferSize: u32) returns (store: ShmMdStore<T>)
    requires image.Sized() && bufferSize > 0
    ensures StoreReady(store) && fresh(store) && fresh(store.mem)
    ensures store.image == image && store.symbols == symbols && Histories(store) == NoHistories(symbols)
  {
    store := new ShmMdStore<T>.Create(image, symbols, bufferSize);
  }

  /** The three stores of the binary stream. It has none for aggregate trades. */
  method CreateBinaryStores(symbols: seq<Str>, bufferSize: u32) returns (stores: ProductShmStores)
    requires bufferSize > 0
    ensures stores.bbo != null && stores.agg == null && stores.trade != null && stores.depth5 != null
    ensures stores.bbo.image == BBO_IMAGE && stores.trade.image == TRADE_IMAGE && stores.depth5.image == DEPTH_IMAGE
    ensures stores.bbo.symbols == stores.trade.symbols == stores.depth5.symbols == symbols
    ensures fresh(stores.Objects()) && stores.Ready()
    ensures stores.Contents() == NothingStored(symbols).(agg := map[])
  {
    ImagesSized();
    var bbo := NewStore(BBO_IMAGE, symbols, bufferSize);
    var trade := NewStore(TRADE_IMAGE, symbols, bufferSize);
    var depth5 := NewStore(DEPTH_IMAGE, symbols, bufferSize);
    assert Footprint(bbo) !! Footprint(trade) !! Footprint(depth5);
    stores := ProductShmStores(bbo, null, trade, depth5);
  }

  method CreateStores(symbols: seq<Str>, bufferSize: u32) returns (stores: ProductShmStores)
    requires bufferSize > 0
    ensures FourStores(stores, symbols) && fresh(stores.Objects())
    ensures stores.Ready() && stores.Contents() == NothingStored(symbols)
  {
    ImagesSized();
    var three := CreateBinaryStores(symbols, bufferSize);
    var agg := NewStore(AGG_IMAGE, symbols, bufferSize);
    assert Footprint(agg) !! three.Objects();
    stores := three.(agg := agg);
  }

  /** The loop on four new stores for any configured symbols: every ring shows its part of what was let through. */
  method RunOnFourStores(msgs: seq<MarketDataMsg>, symbols: seq<Str>, bufferSize: u32, udp: bool, showId: u64 -> Str)
    returns (stores: ProductShmStores, sent: seq<MarketDataMsg>)
    requires bufferSize > 0 && |msgs| <= I64_MAX
    ensures FourStores(stores, symbols) && stores.Ready()
    ensures var a := Accepted(msgs, None);
            && sent == (if udp then a else [])
            && StoreShows(stores.bbo, Bbos(a)) && StoreShows(stores.agg, Aggs(a))
            && StoreShows(stores.trade, TradesOf(a)) && StoreShows(stores.depth5, Depths(a))
  {
    stores := CreateStores(symbols, bufferSize);
    NothingStoredHasRoom(symbols, |msgs|);
    sent := RunOnNewStores(msgs, stores, udp, null, showId);
  }

  /** The first-arrived message with the highest id of its kind and symbol, unchanged; nothing exactly when no
      such message has an id above zero. */
  ghost predicate ExactlyLatest(latest: Option<MarketDataMsg>, msgs: seq<MarketDataMsg>, k: Kind, s: Str) {
    match latest
    case None => AllZero(msgs, k, s)
    case Some(m) => exists i: nat :: FirstOfHighest(msgs, i, k, s) && IdOf(msgs[i]) > 0 && msgs[i] == m
  }

  function TagOption<T>(latest: Option<T>, tag: T -> MarketDataMsg): Option<MarketDataMsg> {
    match latest
    case None => None
    case Some(x) => Some(tag(x))
  }

  lemma LatestFrom<T(!new)>(latest: T, msgs: seq<MarketDataMsg>, k: Kind, s: Str, image: Image<T>,
                            tag: T -> MarketDataMsg)
    returns (i: nat, x: T)
    requires IsLatest(Some(latest), msgs, k, s, image, tag)
    ensures FirstOfHighest(msgs, i, k, s) && IdOf(msgs[i]) > 0 && msgs[i] == tag(x) && latest == image.Kept(x)
  {
    i, x :| FirstOfHighest(msgs, i, k, s) && IdOf(msgs[i]) > 0 && msgs[i] == tag(x) && latest == image.Kept(x);
  }

  /** The units represent the numbers of every message. */
  predicate AllFit(msgs: seq<MarketDataMsg>) {
    forall m | m in msgs :: MsgFits(m)
  }

  lemma BboExact(latest: Option<Bookticker>, msgs: seq<MarketDataMsg>, s: Str)
    requires IsLatest(latest, msgs, Bbo, s, BBO_IMAGE, TagBbo) && AllFit(msgs)
    ensures ExactlyLatest(TagOption(latest, TagBbo), msgs, Bbo, s)
  {
    if latest.Some? {
      var i, x := LatestFrom(latest.value, msgs, Bbo, s, BBO_IMAGE, TagBbo);
      assert MsgFits(msgs[i]);
      BboKept(x);
    }
  }

  lemma AggExact(latest: Option<AggTrade>, msgs: seq<MarketDataMsg>, s: Str)
    requires IsLatest(latest, msgs, Agg, s, AGG_IMAGE, TagAgg) && AllFit(msgs)
    ensures ExactlyLatest(TagOption(latest, TagAgg), msgs, Agg, s)
  {
    if latest.Some? {
      var i, x := LatestFrom(latest.value, msgs, Agg, s, AGG_IMAGE, TagAgg);
      assert MsgFits(msgs[i]);
      AggKept(x);
    }
  }

  lemma TradeExact(latest: Option<Trade>, msgs: seq<MarketDataMsg>, s: Str)
    requires IsLatest(latest, msgs, Trades, s, TRADE_IMAGE, TagTrade) && AllFit(msgs)
    ensures ExactlyLatest(TagOption(latest, TagTrade), msgs, Trades, s)
  {
    if latest.Some? {
      var i, x := LatestFrom(latest.value, msgs, Trades, s, TRADE_IMAGE, TagTrade);
      assert MsgFits(msgs[i]);
      TradeKept(x);
    }
  }

  lemma DepthExact(latest: Option<Depth5>, msgs: seq<MarketDataMsg>, s: Str)
    requires IsLatest(latest, msgs, Depth, s, DEPTH_IMAGE, TagDepth) && AllFit(msgs)
    ensures ExactlyLatest(TagOption(latest, TagDepth), msgs, Depth, s)
  {
    if latest.Some? {
      var i, x := LatestFrom(latest.value, msgs, Depth, s, DEPTH_IMAGE, TagDepth);
      assert MsgFits(msgs[i]);
      DepthKept(x);
    }
  }

  method LatestOfFourStores(msgs: seq<MarketDataMsg>, symbols: seq<Str>, bufferSize: u32, udp: bool, showId: u64 -> Str,
                            sym: Str)
    returns (bbo: Option<Bookticker>, agg: Option<AggTrade>, trade: Option<Trade>, depth: Option<Depth5>)
    requires bufferSize > 0 && |msgs| <= I64_MAX && sym in symbols
    ensures IsLatest(bbo, msgs, Bbo, sym, BBO_IMAGE, TagBbo) && IsLatest(agg, msgs, Agg, sym, AGG_IMAGE, TagAgg)
    ensures IsLatest(trade, msgs, Trades, sym, TRADE_IMAGE, TagTrade)
            && IsLatest(depth, msgs, Depth, sym, DEPTH_IMAGE, TagDepth)
  {
    var stores := CreateStores(symbols, bufferSize);
    NothingStoredHasRoom(symbols, |msgs|);
    bbo, agg, trade, depth := LatestOfEachKind(msgs, stores, udp, showId, sym);
    AllServe(stores, symbols, msgs, sym);
  }

  lemma AllServe(stores: ProductShmStores, symbols: seq<Str>, msgs: seq<MarketDataMsg>, sym: Str)
    requires FourStores(stores, symbols) && sym in symbols
    requires stores.Contents() == StoredAfter(NothingStored(symbols), Accepted(msgs, None))
    ensures Serves(stores.bbo, sym) && Serves(stores.agg, sym) && Serves(stores.trade, sym)
            && Serves(stores.depth5, sym)
  {
  }

  /** Run the loop on four new stores with messages whose numbers the units represent, and read a configured
      symbol: each kind's latest message comes back unchanged. */
  method ReadFourStores(msgs: seq<MarketDataMsg>, symbols: seq<Str>, bufferSize: u32, udp: bool, showId: u64 -> Str,
                        sym: Str)
    returns (bbo: Option<Bookticker>, agg: Option<AggTrade>, trade: Option<Trade>, depth: Option<Depth5>)
    requires bufferSize > 0 && |msgs| <= I64_MAX && sym in symbols
    requires AllFit(msgs)
    ensures ExactlyLatest(TagOption(bbo, TagBbo), msgs, Bbo, sym)
            && ExactlyLatest(TagOption(agg, TagAgg), msgs, Agg, sym)
    ensures ExactlyLatest(TagOption(trade, TagTrade), msgs, Trades, sym)
            && ExactlyLatest(TagOption(depth, TagDepth), msgs, Depth, sym)
  {
    bbo, agg, trade, depth := LatestOfFourStores(msgs, symbols, bufferSize, udp, showId, sym);
    EachExact(bbo, agg, trade, depth, msgs, sym);
  }

  lemma EachExact(bbo: Option<Bookticker>, agg: Option<AggTrade>, trade: Option<Trade>, depth: Option<Depth5>,
                  msgs: seq<MarketDataMsg>, sym: Str)
    requires AllFit(msgs)
    requires IsLatest(bbo, msgs, Bbo, sym, BBO_IMAGE, TagBbo) && IsLatest(agg, msgs, Agg, sym, AGG_IMAGE, TagAgg)
    requires IsLatest(trade, msgs, Trades, sym, TRADE_IMAGE, TagTrade)
    requires IsLatest(depth, msgs, Depth, sym, DEPTH_IMAGE, TagDepth)
    ensures ExactlyLatest(TagOption(bbo, TagBbo), msgs, Bbo, sym)
    ensures ExactlyLatest(TagOption(agg, TagAgg), msgs, Agg, sym)
    ensures ExactlyLatest(TagOption(trade, TagTrade), msgs, Trades, sym)
    ensures ExactlyLatest(TagOption(depth, TagDepth), msgs, Depth, sym)
  {
    BboExact(bbo, msgs, sym);
    AggExact(agg, msgs, sym);
    TradeExact(trade, msgs, sym);
    DepthExact(depth, msgs, sym);
  }
}
