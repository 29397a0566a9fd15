/** What the dedup loop promises for each kind of record, written out over the records' own fields. */
module DedupRules {
  import opened Bytes
  import opened Symbols
  import opened MarketData
  import opened ShmLayout

  /** How a trade id becomes a hash when trades have a custom deduplicator: it is printed, and the
      string is hashed. */
  datatype TradeKey = TradeKey(hash: Str -> u64, show: u64 -> Str) {
    function Of(id: u64): u64 {
      hash(show(id))
    }
  }

  // ---------------------------------------------------------------------------
  // What is let through
  // ---------------------------------------------------------------------------

  /** A quote is new when its update id is above zero and above that of every earlier quote of its symbol. */
  predicate NewQuote(before: seq<MarketDataMsg>, b: Bookticker) {
    && b.updateId > 0
    && forall j | 0 <= j < |before| && before[j].BboMsg?
                  && SymbolFromBytes(before[j].bbo.symbol) == SymbolFromBytes(b.symbol) ::
         before[j].bbo.updateId < b.updateId
  }

  predicate NewAggTrade(before: seq<MarketDataMsg>, a: AggTrade) {
    && a.aggTradeId > 0
    && forall j | 0 <= j < |before| && before[j].AggTradeMsg?
                  && SymbolFromBytes(before[j].agg.symbol) == SymbolFromBytes(a.symbol) ::
         before[j].agg.aggTradeId < a.aggTradeId
  }

  predicate NewTrade(before: seq<MarketDataMsg>, t: Trade) {
    && t.tradeId > 0
    && forall j | 0 <= j < |before| && before[j].TradeMsg?
                  && SymbolFromBytes(before[j].trade.symbol) == SymbolFromBytes(t.symbol) ::
         before[j].trade.tradeId < t.tradeId
  }

  predicate NewDepth(before: seq<MarketDataMsg>, d: Depth5) {
    && d.updateId > 0
    && forall j | 0 <= j < |before| && before[j].Depth5Msg?
                  && SymbolFromBytes(before[j].depth.symbol) == SymbolFromBytes(d.symbol) ::
         before[j].depth.updateId < d.updateId
  }

  /** The hashes of two trade ids agree in their low 13 bits. */
  predicate Alike(m: MarketDataMsg, hash: u64, key: TradeKey) {
    m.TradeMsg? && key.hash(key.show(m.trade.tradeId)) % 8192 == hash % 8192
  }

  predicate LastAlike(before: seq<MarketDataMsg>, i: int, hash: u64, key: TradeKey) {
    && 0 <= i < |before| && Alike(before[i], hash, key)
    && forall j | i < j < |before| :: !Alike(before[j], hash, key)
  }

  /** With a custom deduplicator a trade of any symbol is new unless the last earlier trade whose hash has the same
      low 13 bits has the same hash, or there is none and the hash is zero. */
  ghost predicate NewHash(before: seq<MarketDataMsg>, t: Trade, key: TradeKey) {
    var hash := key.hash(key.show(t.tradeId));
    && (forall i | LastAlike(before, i, hash, key) :: key.hash(key.show(before[i].trade.tradeId)) != hash)
    && (hash == 0 ==> exists i :: 0 <= i < |before| && Alike(before[i], hash, key))
  }

  ghost predicate IsNewMessage(before: seq<MarketDataMsg>, m: MarketDataMsg, key: Option<TradeKey>) {
    match m
    case BboMsg(b) => NewQuote(before, b)
    case AggTradeMsg(a) => NewAggTrade(before, a)
    case TradeMsg(t) => if key.None? then NewTrade(before, t) else NewHash(before, t, key.value)
    case Depth5Msg(d) => NewDepth(before, d)
  }

  /** The messages that are new when they come, in order. */
  ghost function NewMessages(msgs: seq<MarketDataMsg>, key: Option<TradeKey>): seq<MarketDataMsg> {
    if msgs == [] then []
    else
      var n := |msgs| - 1;
      NewMessages(msgs[..n], key) + if IsNewMessage(msgs[..n], msgs[n], key) then [msgs[n]] else []
  }

  // ---------------------------------------------------------------------------
  // What readers find
  // ---------------------------------------------------------------------------

  /** The first-arrived quote with the highest update id of its symbol. */
  predicate NewestQuote(msgs: seq<MarketDataMsg>, i: nat, s: Str) {
    && i < |msgs| && msgs[i].BboMsg? && SymbolFromBytes(msgs[i].bbo.symbol) == s && msgs[i].bbo.updateId > 0
    && forall j | 0 <= j < |msgs| && msgs[j].BboMsg? && SymbolFromBytes(msgs[j].bbo.symbol) == s ::
         msgs[j].bbo.updateId <= msgs[i].bbo.updateId && (j < i ==> msgs[j].bbo.updateId < msgs[i].bbo.updateId)
  }

  predicate NewestAggTrade(msgs: seq<MarketDataMsg>, i: nat, s: Str) {
    && i < |msgs| && msgs[i].AggTradeMsg? && SymbolFromBytes(msgs[i].agg.symbol) == s && msgs[i].agg.aggTradeId > 0
    && forall j | 0 <= j < |msgs| && msgs[j].AggTradeMsg? && SymbolFromBytes(msgs[j].agg.symbol) == s ::
         msgs[j].agg.aggTradeId <= msgs[i].agg.aggTradeId
         && (j < i ==> msgs[j].agg.aggTradeId < msgs[i].agg.aggTradeId)
  }

  predicate NewestTrade(msgs: seq<MarketDataMsg>, i: nat, s: Str) {
    && i < |msgs| && msgs[i].TradeMsg? && SymbolFromBytes(msgs[i].trade.symbol) == s && msgs[i].trade.tradeId > 0
    && forall j | 0 <= j < |msgs| && msgs[j].TradeMsg? && SymbolFromBytes(msgs[j].trade.symbol) == s ::
         msgs[j].trade.tradeId <= msgs[i].trade.tradeId && (j < i ==> msgs[j].trade.tradeId < msgs[i].trade.tradeId)
  }

  predicate NewestDepth(msgs: seq<MarketDataMsg>, i: nat, s: Str) {
    && i < |msgs| && msgs[i].Depth5Msg? && SymbolFromBytes(msgs[i].depth.symbol) == s && msgs[i].depth.updateId > 0
    && forall j | 0 <= j < |msgs| && msgs[j].Depth5Msg? && SymbolFromBytes(msgs[j].depth.symbol) == s ::
         msgs[j].depth.updateId <= msgs[i].depth.updateId && (j < i ==> msgs[j].depth.updateId < msgs[i].depth.updateId)
  }

  /** A reader of the quotes finds that one, as the bytes of a cell keep it, or nothing exactly when every update
      id of the symbol is zero. So for the other kinds. */
  ghost predicate FindsQuote(latest: Option<Bookticker>, msgs: seq<MarketDataMsg>, s: Str, image: Image<Bookticker>) {
    match latest
    case None =>
      forall j | 0 <= j < |msgs| && msgs[j].BboMsg? && SymbolFromBytes(msgs[j].bbo.symbol) == s ::
        msgs[j].bbo.updateId == 0
    case Some(y) => exists i: nat :: NewestQuote(msgs, i, s) && y == image.Kept(msgs[i].bbo)
  }

  ghost predicate FindsAggTrade(latest: Option<AggTrade>, msgs: seq<MarketDataMsg>, s: Str, image: Image<AggTrade>) {
    match latest
    case None =>
      forall j | 0 <= j < |msgs| && msgs[j].AggTradeMsg? && SymbolFromBytes(msgs[j].agg.symbol) == s ::
        msgs[j].agg.aggTradeId == 0
    case Some(y) => exists i: nat :: NewestAggTrade(msgs, i, s) && y == image.Kept(msgs[i].agg)
  }

  ghost predicate FindsTrade(latest: Option<Trade>, msgs: seq<MarketDataMsg>, s: Str, image: Image<Trade>) {
    match latest
    case None =>
      forall j | 0 <= j < |msgs| && msgs[j].TradeMsg? && SymbolFromBytes(msgs[j].trade.symbol) == s ::
        msgs[j].trade.tradeId == 0
    case Some(y) => exists i: nat :: NewestTrade(msgs, i, s) && y == image.Kept(msgs[i].trade)
  }

  ghost predicate FindsDepth(latest: Option<Depth5>, msgs: seq<MarketDataMsg>, s: Str, image: Image<Depth5>) {
    match latest
    case None =>
      forall j | 0 <= j < |msgs| && msgs[j].Depth5Msg? && SymbolFromBytes(msgs[j].depth.symbol) == s ::
        msgs[j].depth.updateId == 0
    case Some(y) => exists i: nat :: NewestDepth(msgs, i, s) && y == image.Kept(msgs[i].depth)
  }
}
