/** From the arrivals of all connections to the bytes of the rings and to what readers of them find. */
module DedupRings {
  import opened Bytes
  import opened Symbols
  import opened Multiples
  import opened MarketData
  import opened Streams
  import opened Dedup
  import opened RedundantFeeds
  import opened ShmLayout
  import opened ShmStore
  import opened DedupRules
  import opened DedupWorker
  import opened DedupEndToEnd

  /** The stores as created: every configured symbol has an empty history. */
  predicate Unwritten(first: Stored) {
    && (forall s | s in first.bbo :: first.bbo[s] == []) && (forall s | s in first.agg :: first.agg[s] == [])
    && (forall s | s in first.trade :: first.trade[s] == []) && (forall s | s in first.depth5 :: first.depth5[s] == [])
  }

  // ---------------------------------------------------------------------------
  // The bytes of a ring
  // ---------------------------------------------------------------------------

  /** Someone who maps the memory `m` of a store and knows where a symbol's slot is finds the records `h`:
      their number in the index and the last of them, as many as the ring has cells, in the cells. */
  ghost predicate RingShows<T(!new)>(m: seq<byte>, lay: Layout, image: Image<T>, at: (nat, nat), h: seq<T>) {
    && at.0 + INSTRUMENT_HEADER_SIZE == at.1 <= |m| && ReadI64Le(m, at.0 + INDEX_FIELD) == |h| - 1
    && forall j {:trigger Retained(j, |h|, lay.size)} | Retained(j, |h|, lay.size) ::
         lay.size > 0 &&
         var cell := at.1 + Times(lay.cell, Wrap(j, lay.size));
         cell + lay.cell <= |m| && image.decode(m[cell..cell + lay.cell]) == image.Kept(h[j])
  }

  lemma RingShowsHistory<T(!new)>(m: seq<byte>, lay: Layout, image: Image<T>, symbols: seq<Str>,
                                  index: map<Str, (nat, nat)>, slots: map<Str, nat>, histories: map<Str, seq<T>>,
                                  sym: Str)
    requires image.Sized() && StoreHolds(m, lay, image, symbols, index, slots, histories) && sym in index
    ensures RingShows(m, lay, image, index[sym], histories[sym])
  {
    var h := histories[sym];
    MemoryShowsIndex(m, lay, image, symbols, index, slots, histories, sym);
    forall j | Retained(j, |h|, lay.size)
      ensures lay.size > 0 &&
              var cell := index[sym].1 + Times(lay.cell, Wrap(j, lay.size));
              cell + lay.cell <= |m| && image.decode(m[cell..cell + lay.cell]) == image.Kept(h[j])
    {
      MemoryShowsCell(m, lay, image, symbols, index, slots, histories, sym, j);
    }
  }

  /** In a store, if there is one, the ring of every configured symbol shows that symbol's part of `records`. */
  ghost predicate StoreShows<T(!new)>(store: ShmMdStore?<T>, records: seq<(Str, T)>)
    reads Footprint(store)
  {
    store != null ==>
      forall s | s in store.index ::
        RingShows(store.mem[..], store.Lay(), store.image, store.index[s], Project(records, s))
  }

  lemma StoreShowsAppended<T(!new)>(store: ShmMdStore?<T>, first: map<Str, seq<T>>, records: seq<(Str, T)>)
    requires StoreReady(store) && Histories(store) == Appended(first, records)
    requires forall s | s in first :: first[s] == []
    ensures StoreShows(store, records)
  {
    if store != null {
      forall s | s in store.index
        ensures RingShows(store.mem[..], store.Lay(), store.image, store.index[s], Project(records, s))
      {
        assert store.histories[s] == [] + Project(records, s) == Project(records, s);
        RingShowsHistory(store.mem[..], store.Lay(), store.image, store.symbols, store.index, store.slots,
                         store.histories, s);
      }
    }
  }

  /** Run the loop on newly created stores. Then the memory of each ring, of any kind and symbol, shows
      the accepted records of that kind and symbol: their number in the index, the last of them in the
      cells. */
  method RunOnNewStores(msgs: seq<MarketDataMsg>, stores: ProductShmStores, udp: bool, custom: UuidDedup?,
                        showId: u64 -> Str)
    returns (sent: seq<MarketDataMsg>)
    requires stores.Ready() && RoomAll(stores.Contents(), |msgs|) && Unwritten(stores.Contents())
    requires custom != null ==> custom.Valid() && custom.history == [] && {custom, custom.table} !! stores.Objects()
    modifies stores.Objects(), if custom == null then {} else {custom, custom.table}
    ensures stores.Ready()
    ensures var a := Accepted(msgs, TradeKeyOf(custom, showId));
            && sent == (if udp then a else [])
            && stores.Contents() == StoredAfter(old(stores.Contents()), a)
            && StoreShows(stores.bbo, Bbos(a)) && StoreShows(stores.agg, Aggs(a))
            && StoreShows(stores.trade, TradesOf(a)) && StoreShows(stores.depth5, Depths(a))
  {
    ghost var first := stores.Contents();
    sent := RunDedupLoop(msgs, stores, udp, custom, showId);
    ghost var a := Accepted(msgs, TradeKeyOf(custom, showId));
    StoreShowsAppended(stores.bbo, first.bbo, Bbos(a));
    StoreShowsAppended(stores.agg, first.agg, Aggs(a));
    StoreShowsAppended(stores.trade, first.trade, TradesOf(a));
    StoreShowsAppended(stores.depth5, first.depth5, Depths(a));
  }

  // ---------------------------------------------------------------------------
  // The records of one kind and symbol
  // ---------------------------------------------------------------------------

  /** The messages `a` are the records `h` under the tag of their kind. */
  predicate Tagged<T>(a: seq<MarketDataMsg>, h: seq<T>, tag: T -> MarketDataMsg) {
    |a| == |h| && forall j | 0 <= j < |a| :: a[j] == tag(h[j])
  }

  lemma TaggedNext<T>(a: seq<MarketDataMsg>, h: seq<T>, tag: T -> MarketDataMsg, m: MarketDataMsg, x: T)
    requires Tagged(a, h, tag) && m == tag(x)
    ensures Tagged(a + [m], h + [x], tag)
  {
  }

  function TagBbo(b: Bookticker): MarketDataMsg { BboMsg(b) }
  function TagAgg(a: AggTrade): MarketDataMsg { AggTradeMsg(a) }
  function TagTrade(t: Trade): MarketDataMsg { TradeMsg(t) }
  function TagDepth(d: Depth5): MarketDataMsg { Depth5Msg(d) }

  lemma {:induction false} SelectedBbos(a: seq<MarketDataMsg>, s: Str)
    ensures Tagged(Select(a, Bbo, s), Project(Bbos(a), s), TagBbo)
  {
    if a != [] {
      var n := |a| - 1;
      SelectedBbos(a[..n], s);
      if a[n].BboMsg? {
        ProjectSnoc(Bbos(a[..n]), SymOf(a[n]), a[n].bbo, s);
        TaggedNext(Select(a[..n], Bbo, s), Project(Bbos(a[..n]), s), TagBbo, a[n], a[n].bbo);
      }
    }
  }

  lemma {:induction false} SelectedAggs(a: seq<MarketDataMsg>, s: Str)
    ensures Tagged(Select(a, Agg, s), Project(Aggs(a), s), TagAgg)
  {
    if a != [] {
      var n := |a| - 1;
      SelectedAggs(a[..n], s);
      if a[n].AggTradeMsg? {
        ProjectSnoc(Aggs(a[..n]), SymOf(a[n]), a[n].agg, s);
        TaggedNext(Select(a[..n], Agg, s), Project(Aggs(a[..n]), s), TagAgg, a[n], a[n].agg);
      }
    }
  }

  lemma {:induction false} SelectedTrades(a: seq<MarketDataMsg>, s: Str)
    ensures Tagged(Select(a, Trades, s), Project(TradesOf(a), s), TagTrade)
  {
    if a != [] {
      var n := |a| - 1;
      SelectedTrades(a[..n], s);
      if a[n].TradeMsg? {
        ProjectSnoc(TradesOf(a[..n]), SymOf(a[n]), a[n].trade, s);
        TaggedNext(Select(a[..n], Trades, s), Project(TradesOf(a[..n]), s), TagTrade, a[n], a[n].trade);
      }
    }
  }

  lemma {:induction false} SelectedDepths(a: seq<MarketDataMsg>, s: Str)
    ensures Tagged(Select(a, Depth, s), Project(Depths(a), s), TagDepth)
  {
    if a != [] {
      var n := |a| - 1;
      SelectedDepths(a[..n], s);
      if a[n].Depth5Msg? {
        ProjectSnoc(Depths(a[..n]), SymOf(a[n]), a[n].depth, s);
        TaggedNext(Select(a[..n], Depth, s), Project(Depths(a[..n]), s), TagDepth, a[n], a[n].depth);
      }
    }
  }

  /** The histories kept for a symbol are the messages of `a` of their kind and symbol. */
  predicate HoldsSelected(st: Stored, a: seq<MarketDataMsg>, s: Str) {
    && (s in st.bbo ==> Tagged(Select(a, Bbo, s), st.bbo[s], TagBbo))
    && (s in st.agg ==> Tagged(Select(a, Agg, s), st.agg[s], TagAgg))
    && (s in st.trade ==> Tagged(Select(a, Trades, s), st.trade[s], TagTrade))
    && (s in st.depth5 ==> Tagged(Select(a, Depth, s), st.depth5[s], TagDepth))
  }

  /** After any message sequence each ring's history, kind by kind and for every configured symbol,
      is that of the accepted messages of its kind and symbol, in order. */
  lemma RingsHoldAccepted(first: Stored, msgs: seq<MarketDataMsg>, uuid: Option<TradeKey>, s: Str)
    requires Unwritten(first)
    ensures HoldsSelected(StoredAfter(first, Accepted(msgs, uuid)), Accepted(msgs, uuid), s)
  {
    var a := Accepted(msgs, uuid);
    SelectedBbos(a, s);
    SelectedAggs(a, s);
    SelectedTrades(a, s);
    SelectedDepths(a, s);
    assert [] + Project(Bbos(a), s) == Project(Bbos(a), s);
    assert [] + Project(Aggs(a), s) == Project(Aggs(a), s);
    assert [] + Project(TradesOf(a), s) == Project(TradesOf(a), s);
    assert [] + Project(Depths(a), s) == Project(Depths(a), s);
  }

  /** With redundant connections a ring whose history is as above holds one feed's messages up to the furthest
      connection, in order, up to what differs between deliveries. */
  lemma RingHoldsFeed<T, C>(msgs: seq<MarketDataMsg>, k: Kind, s: Str, h: seq<T>, tag: T -> MarketDataMsg,
                            feed: seq<MarketDataMsg>, events: seq<nat>, content: MarketDataMsg -> C)
    requires Tagged(Select(Accepted(msgs, None), k, s), h, tag)
    requires Ascending(Ids(feed)) && Deliverable(Ids(feed), events)
    requires Ids(Select(msgs, k, s)) == Arrivals(Ids(feed), events)
    requires forall m, i | m in msgs && InStream(m, k, s) && 0 <= i < |feed| && IdOf(m) == IdOf(feed[i]) ::
               content(m) == content(feed[i])
    ensures |h| == Furthest(events) <= |feed|
    ensures forall i | 0 <= i < |h| :: IdOf(tag(h[i])) == IdOf(feed[i]) && content(tag(h[i])) == content(feed[i])
  {
    FeedLetThrough(msgs, k, s, feed, events, content);
  }

  // ---------------------------------------------------------------------------
  // The latest message
  // ---------------------------------------------------------------------------

  /** What a reader gets is the first-arrived message bearing the highest id of its kind and symbol, and
      nothing exactly when no such message has an id above zero. */
  ghost predicate IsLatest<T(!new)>(latest: Option<T>, msgs: seq<MarketDataMsg>, k: Kind, s: Str, image: Image<T>,
                                    tag: T -> MarketDataMsg) {
    match latest
    case None => AllZero(msgs, k, s)
    case Some(y) =>
      exists i: nat, x: T ::
        FirstOfHighest(msgs, i, k, s) && IdOf(msgs[i]) > 0 && msgs[i] == tag(x) && y == image.Kept(x)
  }

  lemma LatestFound<T(!new)>(msgs: seq<MarketDataMsg>, i: nat, k: Kind, s: Str, x: T, image: Image<T>,
                             tag: T -> MarketDataMsg)
    requires FirstOfHighest(msgs, i, k, s) && IdOf(msgs[i]) > 0 && msgs[i] == tag(x)
    ensures IsLatest(Some(image.Kept(x)), msgs, k, s, image, tag)
  {
  }

  lemma LastOfHistory<T(!new)>(msgs: seq<MarketDataMsg>, k: Kind, s: Str, h: seq<T>, image: Image<T>,
                               tag: T -> MarketDataMsg)
    requires Tagged(Select(Accepted(msgs, None), k, s), h, tag)
    ensures IsLatest(if h == [] then None else Some(image.Kept(h[|h| - 1])), msgs, k, s, image, tag)
  {
    AcceptedForSymbol(msgs, k, s);
    if h != [] {
      var x := h[|h| - 1];
      var i: nat :| FirstOfHighest(msgs, i, k, s) && IdOf(msgs[i]) > 0 && msgs[i] == tag(x);
      LatestFound(msgs, i, k, s, x, image, tag);
    }
  }

  // ---------------------------------------------------------------------------
  // In terms of the records' fields
  // ---------------------------------------------------------------------------

  lemma QuoteFound(latest: Option<Bookticker>, msgs: seq<MarketDataMsg>, s: Str, image: Image<Bookticker>)
    requires IsLatest(latest, msgs, Bbo, s, image, TagBbo)
    ensures FindsQuote(latest, msgs, s, image)
  {
    if latest.Some? {
      var i: nat, x :| FirstOfHighest(msgs, i, Bbo, s) && IdOf(msgs[i]) > 0 && msgs[i] == TagBbo(x)
                       && latest.value == image.Kept(x);
      assert NewestQuote(msgs, i, s);
    }
  }

  lemma AggTradeFound(latest: Option<AggTrade>, msgs: seq<MarketDataMsg>, s: Str, image: Image<AggTrade>)
    requires IsLatest(latest, msgs, Agg, s, image, TagAgg)
    ensures FindsAggTrade(latest, msgs, s, image)
  {
    if latest.Some? {
      var i: nat, x :| FirstOfHighest(msgs, i, Agg, s) && IdOf(msgs[i]) > 0 && msgs[i] == TagAgg(x)
                       && latest.value == image.Kept(x);
      assert NewestAggTrade(msgs, i, s);
    }
  }

  lemma TradeFound(latest: Option<Trade>, msgs: seq<MarketDataMsg>, s: Str, image: Image<Trade>)
    requires IsLatest(latest, msgs, Trades, s, image, TagTrade)
    ensures FindsTrade(latest, msgs, s, image)
  {
    if latest.Some? {
      var i: nat, x :| FirstOfHighest(msgs, i, Trades, s) && IdOf(msgs[i]) > 0 && msgs[i] == TagTrade(x)
                       && latest.value == image.Kept(x);
      assert NewestTrade(msgs, i, s);
    }
  }

  lemma DepthFound(latest: Option<Depth5>, msgs: seq<MarketDataMsg>, s: Str, image: Image<Depth5>)
    requires IsLatest(latest, msgs, Depth, s, image, TagDepth)
    ensures FindsDepth(latest, msgs, s, image)
  {
    if latest.Some? {
      var i: nat, x :| FirstOfHighest(msgs, i, Depth, s) && IdOf(msgs[i]) > 0 && msgs[i] == TagDepth(x)
                       && latest.value == image.Kept(x);
      assert NewestDepth(msgs, i, s);
    }
  }

  /** The store exists and is configured for the symbol. */
  ghost predicate Serves<T(!new)>(store: ShmMdStore?<T>, sym: Str)
    reads Footprint(store)
  {
    store != null && sym in store.histories
  }

  method ReadFrom<T(!new)>(store: ShmMdStore?<T>, ghost msgs: seq<MarketDataMsg>, ghost k: Kind, sym: Str,
                           ghost tag: T -> MarketDataMsg)
    returns (latest: Option<T>)
    requires StoreReady(store)
    requires Serves(store, sym) ==> Tagged(Select(Accepted(msgs, None), k, sym), store.histories[sym], tag)
    ensures Serves(store, sym) ==> IsLatest(latest, msgs, k, sym, store.image, tag)
  {
    latest := None;
    if store != null {
      latest := store.ReadLatest(sym);
      if sym in store.histories {
        LastOfHistory(msgs, k, sym, store.histories[sym], store.image, tag);
      }
    }
  }

  /** What reading a symbol's latest message of each kind gives after the messages `msgs`. */
  ghost predicate AreLatest(stores: ProductShmStores, msgs: seq<MarketDataMsg>, sym: Str, bbo: Option<Bookticker>,
                            agg: Option<AggTrade>, trade: Option<Trade>, depth: Option<Depth5>)
    reads stores.Objects()
  {
    && (Serves(stores.bbo, sym) ==> IsLatest(bbo, msgs, Bbo, sym, stores.bbo.image, TagBbo))
    && (Serves(stores.agg, sym) ==> IsLatest(agg, msgs, Agg, sym, stores.agg.image, TagAgg))
    && (Serves(stores.trade, sym) ==> IsLatest(trade, msgs, Trades, sym, stores.trade.image, TagTrade))
    && (Serves(stores.depth5, sym) ==> IsLatest(depth, msgs, Depth, sym, stores.depth5.image, TagDepth))
  }

  /** The same, written out over the fields of the records of each kind. */
  ghost predicate AreNewest(stores: ProductShmStores, msgs: seq<MarketDataMsg>, sym: Str, bbo: Option<Bookticker>,
                            agg: Option<AggTrade>, trade: Option<Trade>, depth: Option<Depth5>)
    reads stores.Objects()
  {
    && (Serves(stores.bbo, sym) ==> FindsQuote(bbo, msgs, sym, stores.bbo.image))
    && (Serves(stores.agg, sym) ==> FindsAggTrade(agg, msgs, sym, stores.agg.image))
    && (Serves(stores.trade, sym) ==> FindsTrade(trade, msgs, sym, stores.trade.image))
    && (Serves(stores.depth5, sym) ==> FindsDepth(depth, msgs, sym, stores.depth5.image))
  }

  lemma LatestAreNewest(stores: ProductShmStores, msgs: seq<MarketDataMsg>, sym: Str, bbo: Option<Bookticker>,
                        agg: Option<AggTrade>, trade: Option<Trade>, depth: Option<Depth5>)
    requires AreLatest(stores, msgs, sym, bbo, agg, trade, depth)
    ensures AreNewest(stores, msgs, sym, bbo, agg, trade, depth)
  {
    if Serves(stores.bbo, sym) { QuoteFound(bbo, msgs, sym, stores.bbo.image); }
    if Serves(stores.agg, sym) { AggTradeFound(agg, msgs, sym, stores.agg.image); }
    if Serves(stores.trade, sym) { TradeFound(trade, msgs, sym, stores.trade.image); }
    if Serves(stores.depth5, sym) { DepthFound(depth, msgs, sym, stores.depth5.image); }
  }

  method ReadAll(stores: ProductShmStores, ghost msgs: seq<MarketDataMsg>, sym: Str)
    returns (bbo: Option<Bookticker>, agg: Option<AggTrade>, trade: Option<Trade>, depth: Option<Depth5>)
    requires stores.Ready() && HoldsSelected(stores.Contents(), Accepted(msgs, None), sym)
    ensures AreLatest(stores, msgs, sym, bbo, agg, trade, depth)
  {
    bbo := ReadFrom(stores.bbo, msgs, Bbo, sym, TagBbo);
    agg := ReadFrom(stores.agg, msgs, Agg, sym, TagAgg);
    trade := ReadFrom(stores.trade, msgs, Trades, sym, TagTrade);
    depth := ReadFrom(stores.depth5, msgs, Depth, sym, TagDepth);
  }

  /** Run the loop on newly created stores and read a symbol's latest message of each kind: each is the
      first-arrived one bearing the highest id of its kind and symbol. */
  method LatestOfEachKind(msgs: seq<MarketDataMsg>, stores: ProductShmStores, udp: bool, showId: u64 -> Str, sym: Str)
    returns (bbo: Option<Bookticker>, agg: Option<AggTrade>, trade: Option<Trade>, depth: Option<Depth5>)
    requires stores.Ready() && RoomAll(stores.Contents(), |msgs|) && Unwritten(stores.Contents())
    modifies stores.Objects()
    ensures stores.Ready() && stores.Contents() == StoredAfter(old(stores.Contents()), Accepted(msgs, None))
    ensures AreLatest(stores, msgs, sym, bbo, agg, trade, depth)
    ensures AreNewest(stores, msgs, sym, bbo, agg, trade, depth)
  {
    ghost var first := stores.Contents();
    var _ := RunDedupLoop(msgs, stores, udp, null, showId);
    RingsHoldAccepted(first, msgs, None, sym);
    bbo, agg, trade, depth := ReadAll(stores, msgs, sym);
    LatestAreNewest(stores, msgs, sym, bbo, agg, trade, depth);
  }
}
