/** The dedup loop: messages from all connections of a product, in arrival order, through four
    deduplicators into four stores and the UDP sender. */
module DedupWorker {
  import opened Bytes
  import opened Symbols
  import opened MarketData
  import opened Streams
  import opened Dedup
  import opened DedupRules
  import opened ShmStore

  datatype Kind = Bbo | Agg | Trades | Depth

  function KindOf(m: MarketDataMsg): Kind {
    match m
    case BboMsg(_) => Bbo
    case AggTradeMsg(_) => Agg
    case TradeMsg(_) => Trades
    case Depth5Msg(_) => Depth
  }

  function SymOf(m: MarketDataMsg): Str {
    match m
    case BboMsg(b) => SymbolFromBytes(b.symbol)
    case AggTradeMsg(a) => SymbolFromBytes(a.symbol)
    case TradeMsg(t) => SymbolFromBytes(t.symbol)
    case Depth5Msg(d) => SymbolFromBytes(d.symbol)
  }

  /** The sequence number that the default deduplicator checks. */
  function IdOf(m: MarketDataMsg): u64 {
    match m
    case BboMsg(b) => b.updateId
    case AggTradeMsg(a) => a.aggTradeId
    case TradeMsg(t) => t.tradeId
    case Depth5Msg(d) => d.updateId
  }

  // ---------------------------------------------------------------------------
  // Specification: which messages of a stream are let through
  // ---------------------------------------------------------------------------

  /** Symbol and id of the messages of one kind. */
  function Items(msgs: seq<MarketDataMsg>, k: Kind): seq<(Str, u64)> {
    if msgs == [] then []
    else
      var n := |msgs| - 1;
      if KindOf(msgs[n]) == k then Items(msgs[..n], k) + [(SymOf(msgs[n]), IdOf(msgs[n]))] else Items(msgs[..n], k)
  }

  /** The hash of each trade's id, for the UUID deduplicator. */
  function TradeHashes(msgs: seq<MarketDataMsg>, key: TradeKey): seq<u64> {
    if msgs == [] then []
    else
      var n := |msgs| - 1;
      if msgs[n].TradeMsg? then TradeHashes(msgs[..n], key) + [key.Of(msgs[n].trade.tradeId)]
      else TradeHashes(msgs[..n], key)
  }

  /** Whether `m` is let through after the messages `before`; `uuid` is there when trades have a custom
      deduplicator. */
  ghost predicate LetThrough(before: seq<MarketDataMsg>, m: MarketDataMsg, uuid: Option<TradeKey>) {
    if m.TradeMsg? && uuid.Some? then !Seen(TradeHashes(before, uuid.value), uuid.value.Of(m.trade.tradeId))
    else IsNew(NotedAll(Items(before, KindOf(m))), SymOf(m), IdOf(m))
  }

  ghost function Accepted(msgs: seq<MarketDataMsg>, uuid: Option<TradeKey>): seq<MarketDataMsg> {
    if msgs == [] then []
    else
      var n := |msgs| - 1;
      if LetThrough(msgs[..n], msgs[n], uuid) then Accepted(msgs[..n], uuid) + [msgs[n]] else Accepted(msgs[..n], uuid)
  }

  /** The records of one kind, tagged with their symbols. */
  function Bbos(msgs: seq<MarketDataMsg>): seq<(Str, Bookticker)> {
    if msgs == [] then []
    else
      var n := |msgs| - 1;
      if msgs[n].BboMsg? then Bbos(msgs[..n]) + [(SymOf(msgs[n]), msgs[n].bbo)] else Bbos(msgs[..n])
  }

  function Aggs(msgs: seq<MarketDataMsg>): seq<(Str, AggTrade)> {
    if msgs == [] then []
    else
      var n := |msgs| - 1;
      if msgs[n].AggTradeMsg? then Aggs(msgs[..n]) + [(SymOf(msgs[n]), msgs[n].agg)] else Aggs(msgs[..n])
  }

  function TradesOf(msgs: seq<MarketDataMsg>): seq<(Str, Trade)> {
    if msgs == [] then []
    else
      var n := |msgs| - 1;
      if msgs[n].TradeMsg? then TradesOf(msgs[..n]) + [(SymOf(msgs[n]), msgs[n].trade)] else TradesOf(msgs[..n])
  }

  function Depths(msgs: seq<MarketDataMsg>): seq<(Str, Depth5)> {
    if msgs == [] then []
    else
      var n := |msgs| - 1;
      if msgs[n].Depth5Msg? then Depths(msgs[..n]) + [(SymOf(msgs[n]), msgs[n].depth)] else Depths(msgs[..n])
  }

  // ---------------------------------------------------------------------------
  // The loop
  // ---------------------------------------------------------------------------

  /** Everything written to the four stores, per symbol; nothing for a store that does not exist. */
  datatype Stored = Stored(bbo: map<Str, seq<Bookticker>>, agg: map<Str, seq<AggTrade>>,
                           trade: map<Str, seq<Trade>>, depth5: map<Str, seq<Depth5>>)

  function AppendTo<T>(histories: map<Str, seq<T>>, s: Str, x: T): map<Str, seq<T>> {
    if s in histories then histories[s := histories[s] + [x]] else histories
  }

  function StoreStep(st: Stored, m: MarketDataMsg): Stored {
    match m
    case BboMsg(b) => st.(bbo := AppendTo(st.bbo, SymbolFromBytes(b.symbol), b))
    case AggTradeMsg(a) => st.(agg := AppendTo(st.agg, SymbolFromBytes(a.symbol), a))
    case TradeMsg(t) => st.(trade := AppendTo(st.trade, SymbolFromBytes(t.symbol), t))
    case Depth5Msg(d) => st.(depth5 := AppendTo(st.depth5, SymbolFromBytes(d.symbol), d))
  }

  /** The stores after the accepted messages have been written on top of what was there. */
  ghost function StoredAfter(first: Stored, accepted: seq<MarketDataMsg>): Stored {
    Stored(Appended(first.bbo, Bbos(accepted)), Appended(first.agg, Aggs(accepted)),
           Appended(first.trade, TradesOf(accepted)), Appended(first.depth5, Depths(accepted)))
  }

  lemma AppendedAt<T>(first: map<Str, seq<T>>, records: seq<(Str, T)>, s: Str, x: T, q: Str)
    requires q in first
    ensures Appended(first, records + [(s, x)])[q]
            == if q == s then Appended(first, records)[q] + [x] else Appended(first, records)[q]
  {
    ProjectSnoc(records, s, x, q);
    if q == s {
      assert first[q] + (Project(records, q) + [x]) == (first[q] + Project(records, q)) + [x];
    }
  }

  lemma AppendedSnoc<T>(first: map<Str, seq<T>>, records: seq<(Str, T)>, s: Str, x: T)
    ensures Appended(first, records + [(s, x)]) == AppendTo(Appended(first, records), s, x)
  {
    var next, target := Appended(first, records + [(s, x)]), AppendTo(Appended(first, records), s, x);
    forall q | q in first
      ensures next[q] == target[q]
    {
      AppendedAt(first, records, s, x, q);
    }
    SameMaps(next, target);
  }

  lemma AppendedNone<T>(first: map<Str, seq<T>>)
    ensures Appended(first, []) == first
  {
    assert forall s | s in first :: first[s] + [] == first[s];
  }

  lemma StoredNone(first: Stored)
    ensures StoredAfter(first, []) == first
  {
    AppendedNone(first.bbo);
    AppendedNone(first.agg);
    AppendedNone(first.trade);
    AppendedNone(first.depth5);
  }

  lemma RecordsNext(accepted: seq<MarketDataMsg>, m: MarketDataMsg)
    ensures Bbos(accepted + [m]) == if m.BboMsg? then Bbos(accepted) + [(SymOf(m), m.bbo)] else Bbos(accepted)
    ensures Aggs(accepted + [m]) == if m.AggTradeMsg? then Aggs(accepted) + [(SymOf(m), m.agg)] else Aggs(accepted)
    ensures TradesOf(accepted + [m])
            == if m.TradeMsg? then TradesOf(accepted) + [(SymOf(m), m.trade)] else TradesOf(accepted)
    ensures Depths(accepted + [m])
            == if m.Depth5Msg? then Depths(accepted) + [(SymOf(m), m.depth)] else Depths(accepted)
  {
    assert (accepted + [m])[..|accepted|] == accepted;
  }

  lemma StoredNext(first: Stored, accepted: seq<MarketDataMsg>, m: MarketDataMsg)
    ensures StoreStep(StoredAfter(first, accepted), m) == StoredAfter(first, accepted + [m])
  {
    RecordsNext(accepted, m);
    match m {
      case BboMsg(b) => AppendedSnoc(first.bbo, Bbos(accepted), SymOf(m), b);
      case AggTradeMsg(a) => AppendedSnoc(first.agg, Aggs(accepted), SymOf(m), a);
      case TradeMsg(t) => AppendedSnoc(first.trade, TradesOf(accepted), SymOf(m), t);
      case Depth5Msg(d) => AppendedSnoc(first.depth5, Depths(accepted), SymOf(m), d);
    }
  }

  /** Room for so many more entries in every history. */
  predicate Room<T>(histories: map<Str, seq<T>>, more: nat) {
    forall s | s in histories :: |histories[s]| + more <= I64_MAX
  }

  predicate RoomAll(st: Stored, more: nat) {
    Room(st.bbo, more) && Room(st.agg, more) && Room(st.trade, more) && Room(st.depth5, more)
  }

  // ---------------------------------------------------------------------------
  // The loop
  // ---------------------------------------------------------------------------

  ghost function Footprint<T(!new)>(store: ShmMdStore?<T>): set<object> {
    if store == null then {} else {store, store.mem}
  }

  ghost function Histories<T(!new)>(store: ShmMdStore?<T>): map<Str, seq<T>>
    reads Footprint(store)
  {
    if store == null then map[] else store.histories
  }

  ghost predicate StoreReady<T(!new)>(store: ShmMdStore?<T>)
    reads Footprint(store)
  {
    store != null ==> store.Valid() && store.bufferSize > 0
  }

  /** `if let Some(ref shm) = store { shm.write(sym, data); }` */
  method WriteTo<T(!new)>(store: ShmMdStore?<T>, sym: Str, data: T)
    requires StoreReady(store) && Room(Histories(store), 1)
    modifies Footprint(store)
    ensures StoreReady(store) && Histories(store) == AppendTo(old(Histories(store)), sym, data)
  {
    if store != null {
      var _ := store.Write(sym, data);
    }
  }

  datatype ProductShmStores = ProductShmStores(
    bbo: ShmMdStore?<Bookticker>, agg: ShmMdStore?<AggTrade>, trade: ShmMdStore?<Trade>, depth5: ShmMdStore?<Depth5>)
  {
    ghost function Objects(): set<object> {
      Footprint(bbo) + Footprint(agg) + Footprint(trade) + Footprint(depth5)
    }

    /** Four separate mappings, each well formed. */
    ghost predicate Ready()
      reads Objects()
    {
      && Footprint(bbo) !! Footprint(agg) !! Footprint(trade) !! Footprint(depth5)
      && StoreReady(bbo) && StoreReady(agg) && StoreReady(trade) && StoreReady(depth5)
    }

    ghost function Contents(): Stored
      reads Objects()
    {
      Stored(Histories(bbo), Histories(agg), Histories(trade), Histories(depth5))
    }
  }

  ghost function TradeKeyOf(custom: UuidDedup?, showId: u64 -> Str): Option<TradeKey> {
    if custom == null then None else Some(TradeKey(custom.hashUuid, showId))
  }

  /** What one more message does to the state of the filter for one kind. */
  lemma NotedNext(before: seq<MarketDataMsg>, m: MarketDataMsg, k: Kind)
    ensures NotedAll(Items(before + [m], k))
         == if KindOf(m) == k then Noted(NotedAll(Items(before, k)), SymOf(m), IdOf(m)) else NotedAll(Items(before, k))
  {
    assert (before + [m])[..|before|] == before;
    if KindOf(m) == k {
      var items := Items(before, k);
      assert (items + [(SymOf(m), IdOf(m))])[..|items|] == items;
    }
  }

  lemma HashesNext(before: seq<MarketDataMsg>, m: MarketDataMsg, key: TradeKey)
    ensures TradeHashes(before + [m], key)
         == if m.TradeMsg? then TradeHashes(before, key) + [key.Of(m.trade.tradeId)] else TradeHashes(before, key)
  {
    assert (before + [m])[..|before|] == before;
  }

  // ---------------------------------------------------------------------------
  // In terms of the records' fields
  // ---------------------------------------------------------------------------

  predicate AllBelow(before: seq<MarketDataMsg>, k: Kind, s: Str, id: u64) {
    forall j | 0 <= j < |before| && KindOf(before[j]) == k && SymOf(before[j]) == s :: IdOf(before[j]) < id
  }

  lemma AllBelowNext(before: seq<MarketDataMsg>, m: MarketDataMsg, k: Kind, s: Str, id: u64)
    ensures AllBelow(before + [m], k, s, id) <==>
            AllBelow(before, k, s, id) && (KindOf(m) == k && SymOf(m) == s ==> IdOf(m) < id)
  {
    var all := before + [m];
    assert all[|before|] == m && forall j | 0 <= j < |before| :: all[j] == before[j];
  }

  /** An id is new to the filter of its kind when it is above all that came for its symbol. */
  lemma {:induction false} NewIsAbove(before: seq<MarketDataMsg>, k: Kind, s: Str, id: u64)
    ensures IsNew(NotedAll(Items(before, k)), s, id) <==> id > 0 && AllBelow(before, k, s, id)
  {
    if before != [] {
      var n := |before| - 1;
      var init, m := before[..n], before[n];
      assert before == init + [m];
      NewIsAbove(init, k, s, id);
      NewIsAbove(init, k, s, IdOf(m));
      NotedNext(init, m, k);
      AllBelowNext(init, m, k, s, id);
    }
  }

  /** The last earlier trade whose hash falls into the slot of `hash`. */
  lemma {:induction false} LastTradeAlike(before: seq<MarketDataMsg>, hash: u64, key: TradeKey) returns (i: int)
    ensures if i < 0
            then LastInSlot(TradeHashes(before, key), hash % 8192) == 0
                 && forall j | 0 <= j < |before| :: !Alike(before[j], hash, key)
            else LastAlike(before, i, hash, key)
                 && LastInSlot(TradeHashes(before, key), hash % 8192) == key.hash(key.show(before[i].trade.tradeId))
  {
    if before == [] {
      i := -1;
    } else {
      var n := |before| - 1;
      var init, m := before[..n], before[n];
      assert before == init + [m];
      HashesNext(init, m, key);
      var hashes := TradeHashes(init, key);
      if Alike(m, hash, key) {
        i := n;
      } else {
        i := LastTradeAlike(init, hash, key);
        if m.TradeMsg? {
          assert (hashes + [key.Of(m.trade.tradeId)])[..|hashes|] == hashes;
        }
      }
    }
  }

  lemma UnseenIsNew(before: seq<MarketDataMsg>, t: Trade, key: TradeKey)
    ensures !Seen(TradeHashes(before, key), key.Of(t.tradeId)) <==> NewHash(before, t, key)
  {
    var hash := key.Of(t.tradeId);
    SeenIsLast(TradeHashes(before, key), hash);
    var i := LastTradeAlike(before, hash, key);
    if i >= 0 {
      forall k | LastAlike(before, k, hash, key)
        ensures k == i
      {
      }
    }
  }

  /** What the filters let through is what is new, kind by kind. */
  lemma LetThroughIsNew(before: seq<MarketDataMsg>, m: MarketDataMsg, uuid: Option<TradeKey>)
    ensures LetThrough(before, m, uuid) <==> IsNewMessage(before, m, uuid)
  {
    if m.TradeMsg? && uuid.Some? {
      UnseenIsNew(before, m.trade, uuid.value);
    } else {
      NewIsAbove(before, KindOf(m), SymOf(m), IdOf(m));
    }
  }

  lemma {:induction false} AcceptedIsNew(msgs: seq<MarketDataMsg>, uuid: Option<TradeKey>)
    ensures Accepted(msgs, uuid) == NewMessages(msgs, uuid)
  {
    if msgs != [] {
      var n := |msgs| - 1;
      AcceptedIsNew(msgs[..n], uuid);
      LetThroughIsNew(msgs[..n], msgs[n], uuid);
    }
  }

  // ---------------------------------------------------------------------------
  // The filters
  // ---------------------------------------------------------------------------

  /** What all the deduplicators remember: ids per kind and symbol, and the hashes checked. */
  datatype FilterState = FilterState(bbo: map<Str, u64>, agg: map<Str, u64>, trade: map<Str, u64>,
                                     depth5: map<Str, u64>, hashes: seq<u64>)

  const NO_FILTERS: FilterState := FilterState(map[], map[], map[], map[], [])

  /** One message through its deduplicator. */
  function FilterStep(st: FilterState, m: MarketDataMsg, uuid: Option<TradeKey>): FilterState {
    match m
    case BboMsg(b) => st.(bbo := Noted(st.bbo, SymbolFromBytes(b.symbol), b.updateId))
    case AggTradeMsg(a) => st.(agg := Noted(st.agg, SymbolFromBytes(a.symbol), a.aggTradeId))
    case Depth5Msg(d) => st.(depth5 := Noted(st.depth5, SymbolFromBytes(d.symbol), d.updateId))
    case TradeMsg(t) =>
      if uuid.Some? then st.(hashes := st.hashes + [uuid.value.hash(uuid.value.show(t.tradeId))])
      else st.(trade := Noted(st.trade, SymbolFromBytes(t.symbol), t.tradeId))
  }

  ghost predicate FilterPasses(st: FilterState, m: MarketDataMsg, uuid: Option<TradeKey>) {
    match m
    case BboMsg(b) => IsNew(st.bbo, SymbolFromBytes(b.symbol), b.updateId)
    case AggTradeMsg(a) => IsNew(st.agg, SymbolFromBytes(a.symbol), a.aggTradeId)
    case Depth5Msg(d) => IsNew(st.depth5, SymbolFromBytes(d.symbol), d.updateId)
    case TradeMsg(t) =>
      if uuid.Some? then !Seen(st.hashes, uuid.value.hash(uuid.value.show(t.tradeId)))
      else IsNew(st.trade, SymbolFromBytes(t.symbol), t.tradeId)
  }

  function StateAfter(before: seq<MarketDataMsg>, uuid: Option<TradeKey>): FilterState {
    FilterState(NotedAll(Items(before, Bbo)), NotedAll(Items(before, Agg)),
                if uuid.Some? then map[] else NotedAll(Items(before, Trades)),
                NotedAll(Items(before, Depth)),
                if uuid.Some? then TradeHashes(before, uuid.value) else [])
  }

  lemma StateNext(before: seq<MarketDataMsg>, m: MarketDataMsg, uuid: Option<TradeKey>)
    ensures FilterStep(StateAfter(before, uuid), m, uuid) == StateAfter(before + [m], uuid)
    ensures FilterPasses(StateAfter(before, uuid), m, uuid) == LetThrough(before, m, uuid)
  {
    NotedNext(before, m, Bbo);
    NotedNext(before, m, Agg);
    NotedNext(before, m, Trades);
    NotedNext(before, m, Depth);
    if uuid.Some? {
      HashesNext(before, m, uuid.value);
    }
  }

  /** The deduplicators the loop owns. Trades go to the custom one when there is one. */
  class Deduplicators {
    const bbo: UpdateIdDedup
    const agg: UpdateIdDedup
    const trade: UpdateIdDedup
    const depth5: UpdateIdDedup
    const custom: UuidDedup?
    /** `format!("{trade_id}")` */
    const showId: u64 -> Str

    ghost function Objects(): set<object> {
      {bbo, agg, trade, depth5} + if custom == null then {} else {custom, custom.table}
    }

    ghost predicate Distinct() {
      && bbo != agg && bbo != trade && bbo != depth5 && agg != trade && agg != depth5 && trade != depth5
    }

    ghost predicate Valid()
      reads Objects()
    {
      Distinct() && (custom != null ==> custom.Valid())
    }

    ghost function State(): FilterState
      reads Objects()
    {
      FilterState(bbo.lastIds, agg.lastIds, trade.lastIds, depth5.lastIds,
                  if custom == null then [] else custom.history)
    }

    constructor (custom: UuidDedup?, showId: u64 -> Str)
      requires custom != null ==> custom.Valid() && custom.history == []
      ensures Valid() && this.custom == custom && this.showId == showId
      ensures State() == NO_FILTERS
      ensures fresh(Objects() - (if custom == null then {} else {custom, custom.table}))
    {
      bbo := new UpdateIdDedup();
      agg := new UpdateIdDedup();
      trade := new UpdateIdDedup();
      depth5 := new UpdateIdDedup();
      this.custom, this.showId := custom, showId;
    }

    method Check(m: MarketDataMsg) returns (isNew: bool)
      requires Valid()
      modifies Objects()
      ensures Valid()
      ensures State() == FilterStep(old(State()), m, TradeKeyOf(custom, showId))
      ensures isNew == FilterPasses(old(State()), m, TradeKeyOf(custom, showId))
    {
      var sym := SymOf(m);
      match m {
        case BboMsg(b) => isNew := bbo.CheckAndUpdate(sym, b.updateId);
        case AggTradeMsg(a) => isNew := agg.CheckAndUpdate(sym, a.aggTradeId);
        case Depth5Msg(d) => isNew := depth5.CheckAndUpdate(sym, d.updateId);
        case TradeMsg(t) =>
          if custom != null {
            isNew := custom.CheckAndInsert(showId(t.tradeId));
          } else {
            isNew := trade.CheckAndUpdate(sym, t.tradeId);
          }
      }
    }
  }

  /** Write a message that was let through to the store of its kind. */
  method Publish(stores: ProductShmStores, m: MarketDataMsg)
    requires stores.Ready() && RoomAll(stores.Contents(), 1)
    modifies stores.Objects()
    ensures stores.Ready() && stores.Contents() == StoreStep(old(stores.Contents()), m)
  {
    var sym := SymOf(m);
    match m {
      case BboMsg(b) => WriteTo(stores.bbo, sym, b);
      case AggTradeMsg(a) => WriteTo(stores.agg, sym, a);
      case TradeMsg(t) => WriteTo(stores.trade, sym, t);
      case Depth5Msg(d) => WriteTo(stores.depth5, sym, d);
    }
  }

  /** All that the loop changes. */
  datatype LoopState = LoopState(filter: FilterState, stored: Stored, sent: seq<MarketDataMsg>)

  ghost function LoopStep(ls: LoopState, m: MarketDataMsg, uuid: Option<TradeKey>, udp: bool): LoopState {
    var pass := FilterPasses(ls.filter, m, uuid);
    LoopState(FilterStep(ls.filter, m, uuid), if pass then StoreStep(ls.stored, m) else ls.stored,
              if pass && udp then ls.sent + [m] else ls.sent)
  }

  ghost function LoopAfter(first: Stored, msgs: seq<MarketDataMsg>, uuid: Option<TradeKey>, udp: bool): LoopState {
    Fold(LoopState(NO_FILTERS, first, []), (ls, m) => LoopStep(ls, m, uuid, udp), msgs)
  }

  /** Filters, stores and output as the specification gives them for the messages so far. */
  ghost function Specified(first: Stored, msgs: seq<MarketDataMsg>, uuid: Option<TradeKey>, udp: bool): LoopState {
    LoopState(StateAfter(msgs, uuid), StoredAfter(first, Accepted(msgs, uuid)),
              if udp then Accepted(msgs, uuid) else [])
  }

  lemma AcceptedNext(msgs: seq<MarketDataMsg>, m: MarketDataMsg, uuid: Option<TradeKey>)
    ensures Accepted(msgs + [m], uuid)
            == if LetThrough(msgs, m, uuid) then Accepted(msgs, uuid) + [m] else Accepted(msgs, uuid)
  {
    assert (msgs + [m])[..|msgs|] == msgs;
  }

  /** One more message, on all three. */
  lemma LoopNext(first: Stored, msgs: seq<MarketDataMsg>, m: MarketDataMsg, uuid: Option<TradeKey>, udp: bool)
    ensures Specified(first, msgs + [m], uuid, udp) == LoopStep(Specified(first, msgs, uuid, udp), m, uuid, udp)
  {
    AcceptedNext(msgs, m, uuid);
    StateNext(msgs, m, uuid);
    StoredNext(first, Accepted(msgs, uuid), m);
  }

  lemma LoopNone(first: Stored, uuid: Option<TradeKey>, udp: bool)
    ensures Specified(first, [], uuid, udp) == LoopState(NO_FILTERS, first, [])
  {
    StoredNone(first);
  }

  /** The loop computes what the specification says: the filters hold the history of their kind, the
      stores and the output the accepted messages. */
  lemma LoopAfterIs(first: Stored, msgs: seq<MarketDataMsg>, uuid: Option<TradeKey>, udp: bool)
    ensures LoopAfter(first, msgs, uuid, udp) == Specified(first, msgs, uuid, udp)
  {
    var step: (LoopState, MarketDataMsg) -> LoopState := (ls, m) => LoopStep(ls, m, uuid, udp);
    var spec: seq<MarketDataMsg> -> LoopState := before => Specified(first, before, uuid, udp);
    forall before, m
      ensures spec(before + [m]) == step(spec(before), m)
    {
      LoopNext(first, before, m, uuid, udp);
    }
    LoopNone(first, uuid, udp);
    FoldIs(LoopState(NO_FILTERS, first, []), step, msgs, spec);
  }

  /** One turn of the loop. */
  method HandleMessage(dedups: Deduplicators, stores: ProductShmStores, m: MarketDataMsg, udp: bool,
                       sent: seq<MarketDataMsg>)
    returns (sent': seq<MarketDataMsg>)
    requires dedups.Valid() && stores.Ready() && RoomAll(stores.Contents(), 1)
    requires dedups.Objects() !! stores.Objects()
    modifies dedups.Objects(), stores.Objects()
    ensures dedups.Valid() && stores.Ready()
    ensures LoopState(dedups.State(), stores.Contents(), sent')
         == LoopStep(LoopState(old(dedups.State()), old(stores.Contents()), sent), m,
                     TradeKeyOf(dedups.custom, dedups.showId), udp)
  {
    ghost var before := LoopState(dedups.State(), stores.Contents(), sent);
    sent' := sent;
    var isNew := dedups.Check(m);
    ghost var filter := dedups.State();
    if isNew {
      Publish(stores, m);
      assert dedups.Valid() && dedups.State() == filter;
      if udp {
        sent' := sent' + [m];
      }
    }
    LoopStepOf(before, m, TradeKeyOf(dedups.custom, dedups.showId), udp, filter, stores.Contents(), sent', isNew);
  }

  lemma LoopStepOf(ls: LoopState, m: MarketDataMsg, uuid: Option<TradeKey>, udp: bool, filter: FilterState,
                   stored: Stored, sent: seq<MarketDataMsg>, isNew: bool)
    requires filter == FilterStep(ls.filter, m, uuid) && isNew == FilterPasses(ls.filter, m, uuid)
    requires stored == if isNew then StoreStep(ls.stored, m) else ls.stored
    requires sent == if isNew && udp then ls.sent + [m] else ls.sent
    ensures LoopState(filter, stored, sent) == LoopStep(ls, m, uuid, udp)
  {
  }

  /** New filters, apart from the objects `others` of the caller. */
  method NewDeduplicators(custom: UuidDedup?, showId: u64 -> Str, ghost others: set<object>)
    returns (dedups: Deduplicators)
    requires custom != null ==> custom.Valid() && custom.history == [] && {custom, custom.table} !! others
    ensures dedups.Valid() && dedups.custom == custom && dedups.showId == showId && dedups.State() == NO_FILTERS
    ensures dedups.Objects() !! others
            && fresh(dedups.Objects() - (if custom == null then {} else {custom, custom.table}))
  {
    dedups := new Deduplicators(custom, showId);
  }

  /** Run the loop until the channel is closed: `msgs` is everything received, in arrival order. The
      UDP output is every message let through, in arrival order, and the rings have been written
      those of their kind and symbol. */
  method RunDedupLoop(msgs: seq<MarketDataMsg>, stores: ProductShmStores, udp: bool, custom: UuidDedup?,
                      showId: u64 -> Str)
    returns (sent: seq<MarketDataMsg>)
    requires stores.Ready() && RoomAll(stores.Contents(), |msgs|)
    requires custom != null ==> custom.Valid() && custom.history == [] && {custom, custom.table} !! stores.Objects()
    modifies stores.Objects(), if custom == null then {} else {custom, custom.table}
    ensures sent == if udp then Accepted(msgs, TradeKeyOf(custom, showId)) else []
    ensures Accepted(msgs, TradeKeyOf(custom, showId)) == NewMessages(msgs, TradeKeyOf(custom, showId))
    ensures stores.Ready()
    ensures stores.Contents() == StoredAfter(old(stores.Contents()), Accepted(msgs, TradeKeyOf(custom, showId)))
  {
    LoopAfterIs(stores.Contents(), msgs, TradeKeyOf(custom, showId), udp);
    AcceptedIsNew(msgs, TradeKeyOf(custom, showId));
    var dedups := NewDeduplicators(custom, showId, stores.Objects());
    sent := ReceiveAll(dedups, msgs, stores, udp);
  }

  method ReceiveAll(dedups: Deduplicators, msgs: seq<MarketDataMsg>, stores: ProductShmStores, udp: bool)
    returns (sent: seq<MarketDataMsg>)
    requires dedups.Valid() && dedups.State() == NO_FILTERS
    requires stores.Ready() && RoomAll(stores.Contents(), |msgs|) && dedups.Objects() !! stores.Objects()
    modifies dedups.Objects(), stores.Objects()
    ensures dedups.Valid() && stores.Ready()
    ensures LoopState(dedups.State(), stores.Contents(), sent)
         == LoopAfter(old(stores.Contents()), msgs, TradeKeyOf(dedups.custom, dedups.showId), udp)
  {
    ghost var first, uuid := stores.Contents(), TradeKeyOf(dedups.custom, dedups.showId);
    sent := [];
    for i := 0 to |msgs|
      invariant dedups.Valid() && stores.Ready()
      invariant LoopState(dedups.State(), stores.Contents(), sent) == LoopAfter(first, msgs[..i], uuid, udp)
    {
      assert msgs[..i + 1][..i] == msgs[..i];
      RoomAfter(first, msgs[..i], |msgs|, uuid, udp);
      sent := HandleMessage(dedups, stores, msgs[i], udp, sent);
    }
    assert msgs[..|msgs|] == msgs;
  }

  lemma RoomNext(c: Stored, m: MarketDataMsg, more: nat)
    requires RoomAll(c, more) && more > 1
    ensures RoomAll(c, more - 1) && RoomAll(StoreStep(c, m), more - 1)
  {
  }

  lemma {:induction false} RoomAfter(first: Stored, msgs: seq<MarketDataMsg>, more: nat, uuid: Option<TradeKey>,
                                     udp: bool)
    requires RoomAll(first, more) && |msgs| < more
    ensures RoomAll(LoopAfter(first, msgs, uuid, udp).stored, more - |msgs|)
            && RoomAll(LoopAfter(first, msgs, uuid, udp).stored, 1)
  {
    if msgs != [] {
      var n := |msgs| - 1;
      RoomAfter(first, msgs[..n], more, uuid, udp);
      RoomNext(LoopAfter(first, msgs[..n], uuid, udp).stored, msgs[n], more - n);
    }
  }
}
