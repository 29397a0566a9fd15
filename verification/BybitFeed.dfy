/** The stateful Bybit depth parser: one order book per symbol, fed by an interleaving of symbols. */
module BybitFeed {
  import opened Bytes
  import opened Symbols
  import opened MarketData
  import opened Streams
  import opened BookSide
  import opened BookTruth
  import opened BookAsks
  import opened AskTruth
  import OB = OrderBook

  /** An `orderbook.50` message after JSON decoding; absent or ill-typed fields are `None`. */
  datatype DepthData = DepthData(symbol: Option<Str>, updateId: Option<u64>, bids: seq<Level>, asks: seq<Level>)
  datatype DepthFrame = DepthFrame(msgType: Option<string>, data: Option<DepthData>, ts: Option<u64>, cts: Option<u64>)

  const BOOK_LEVELS: nat := 50

  function GetOr<T>(o: Option<T>, default: T): T {
    if o.Some? then o.value else default
  }

  function ThousandTimes(t: u64): u64 {
    (t * 1000) % (U64_MAX + 1)
  }

  function BookMsgOf(v: DepthFrame): OB.BookMsg
    requires v.data.Some?
  {
    OB.BookMsg(GetOr(v.msgType, "snapshot") == "snapshot", v.data.value.bids, v.data.value.asks)
  }

  /** The record emitted for a frame when the symbol's book shows `top`. */
  function DepthRecord(v: DepthFrame, sym: Str, productType: ProductType, top: OB.BookTop, now: u64): Depth5
    requires v.data.Some?
  {
    var ts := GetOr(v.ts, 0);
    Depth5(SymbolToBytes(sym), productType, ThousandTimes(ts), ThousandTimes(GetOr(v.cts, ts)),
           GetOr(v.data.value.updateId, 0), top.bidLevel, top.askLevel, 0.0,
           top.bidPrices, top.bidVols, top.askPrices, top.askVols, NO_ORDER_COUNTS, NO_ORDER_COUNTS, now)
  }

  // ---------------------------------------------------------------------------
  // What the frames quote
  // ---------------------------------------------------------------------------

  /** Everything quoted for a symbol by the frames received: a snapshot (which a frame without a type is, too)
      replaces it, a zero volume removes a price. */
  function QuotedBidsOf(frames: seq<DepthFrame>, sym: Str): map<real, real> {
    if frames == [] then map[]
    else
      var v, before := frames[|frames| - 1], QuotedBidsOf(frames[..|frames| - 1], sym);
      if v.data.None? || v.data.value.symbol != Some(sym) then before
      else if v.msgType.None? || v.msgType.value == "snapshot" then Quotes(v.data.value.bids)
      else QuotedDelta(before, v.data.value.bids)
  }

  function QuotedAsksOf(frames: seq<DepthFrame>, sym: Str): map<real, real> {
    if frames == [] then map[]
    else
      var v, before := frames[|frames| - 1], QuotedAsksOf(frames[..|frames| - 1], sym);
      if v.data.None? || v.data.value.symbol != Some(sym) then before
      else if v.msgType.None? || v.msgType.value == "snapshot" then Quotes(v.data.value.asks)
      else QuotedDelta(before, v.data.value.asks)
  }

  /** The messages to one side of a symbol's book since its last snapshot. */
  function BidFeed(frames: seq<DepthFrame>, sym: Str): seq<SideMsg> {
    if frames == [] then []
    else
      var v, before := frames[|frames| - 1], BidFeed(frames[..|frames| - 1], sym);
      if v.data.None? || v.data.value.symbol != Some(sym) then before
      else if v.msgType.None? || v.msgType.value == "snapshot" then [Snapshot(v.data.value.bids)]
      else before + [Delta(v.data.value.bids)]
  }

  function AskFeed(frames: seq<DepthFrame>, sym: Str): seq<SideMsg> {
    if frames == [] then []
    else
      var v, before := frames[|frames| - 1], AskFeed(frames[..|frames| - 1], sym);
      if v.data.None? || v.data.value.symbol != Some(sym) then before
      else if v.msgType.None? || v.msgType.value == "snapshot" then [Snapshot(Mirror(v.data.value.asks))]
      else before + [Delta(Mirror(v.data.value.asks))]
  }

  /** The feed is well formed, and few of its levels have been removed, on either side since the last snapshot. */
  ghost predicate FewRemovals(frames: seq<DepthFrame>, sym: Str) {
    && (exists grid :: OB.FeedAccepted(BidFeed(frames, sym), grid, 50))
    && (exists grid :: OB.FeedAccepted(AskFeed(frames, sym), grid, 50))
    && TrackRun(EMPTY_TRACK, BidFeed(frames, sym), 50).removals <= 45
    && TrackRun(EMPTY_TRACK, AskFeed(frames, sym), 50).removals <= 45
  }

  /** The levels in the slots of one side, and zeros behind them. */
  predicate FillsSlots(prices: Five, vols: Five, level: nat, levels: seq<Level>) {
    && level == |levels| <= 5
    && forall i | 0 <= i < 5 ::
         (prices[i], vols[i]) == if i < level then (levels[i].price, levels[i].vol) else (0.0, 0.0)
  }

  /** The record shows the five highest bids and the five lowest asks of all that the frames quote. */
  ghost predicate ShowsBestQuotes(d: Depth5, frames: seq<DepthFrame>, sym: Str) {
    && (exists bids :: FillsSlots(d.bidPrices, d.bidVols, d.bidLevel, bids)
                       && IsTop(bids, QuotedBidsOf(frames, sym), 5))
    && (exists asks :: FillsSlots(d.askPrices, d.askVols, d.askLevel, asks)
                       && IsLowest(asks, QuotedAsksOf(frames, sym), 5))
  }

  /** Everything in the record but the book. */
  predicate Carries(d: Depth5, v: DepthFrame, sym: Str, productType: ProductType, now: u64)
    requires v.data.Some?
  {
    && d.symbol == SymbolToBytes(sym) && d.productType == productType && d.localTimeUs == now
    && d.updateId == (if v.data.value.updateId.Some? then v.data.value.updateId.value else 0)
    && d.eventTimestampUs == (if v.ts.Some? then v.ts.value * 1000 % 0x1_0000_0000_0000_0000 else 0)
    && d.tradeTimestampUs == (if v.cts.Some? then v.cts.value * 1000 % 0x1_0000_0000_0000_0000 else d.eventTimestampUs)
    && d.lastPrice == 0.0 && d.bidOrderCounts == [0, 0, 0, 0, 0] && d.askOrderCounts == [0, 0, 0, 0, 0]
  }

  // ---------------------------------------------------------------------------
  // The frames as messages to books
  // ---------------------------------------------------------------------------

  /** The book messages of the frames, tagged with their symbols. */
  function Handled(frames: seq<DepthFrame>): seq<(Str, OB.BookMsg)> {
    if frames == [] then []
    else
      var v, before := frames[|frames| - 1], Handled(frames[..|frames| - 1]);
      if v.data.None? || v.data.value.symbol.None? then before
      else before + [(v.data.value.symbol.value, BookMsgOf(v))]
  }

  function OwnMsgs(frames: seq<DepthFrame>, sym: Str): seq<OB.BookMsg> {
    OB.SinceSnapshot(Project(Handled(frames), sym))
  }

  lemma OwnMsgsNext(frames: seq<DepthFrame>, sym: Str)
    requires frames != []
    ensures var v, before := frames[|frames| - 1], OwnMsgs(frames[..|frames| - 1], sym);
            OwnMsgs(frames, sym)
            == if v.data.None? || v.data.value.symbol != Some(sym) then before
               else if BookMsgOf(v).snapshot then [BookMsgOf(v)] else before + [BookMsgOf(v)]
  {
    var v, before := frames[|frames| - 1], Handled(frames[..|frames| - 1]);
    if v.data.Some? && v.data.value.symbol.Some? {
      ProjectSnoc(before, v.data.value.symbol.value, BookMsgOf(v), sym);
      OB.SinceSnapshotNext(Project(before, sym), BookMsgOf(v));
    }
  }

  lemma SidesNext(msgs: seq<OB.BookMsg>, m: OB.BookMsg)
    ensures OB.BidMsgs(msgs + [m]) == OB.BidMsgs(msgs) + [OB.BidMsg(m)] && OB.BidMsgs([m]) == [OB.BidMsg(m)]
    ensures OB.AskMsgs(msgs + [m]) == OB.AskMsgs(msgs) + [OB.AskMsg(m)] && OB.AskMsgs([m]) == [OB.AskMsg(m)]
  {
  }

  /** What the books are given is what the frames say. */
  lemma {:induction false} FeedsAre(frames: seq<DepthFrame>, sym: Str)
    ensures OB.BidMsgs(OwnMsgs(frames, sym)) == BidFeed(frames, sym)
    ensures OB.AskMsgs(OwnMsgs(frames, sym)) == AskFeed(frames, sym)
  {
    if frames != [] {
      var v, before := frames[|frames| - 1], frames[..|frames| - 1];
      FeedsAre(before, sym);
      OwnMsgsNext(frames, sym);
      if v.data.Some? && v.data.value.symbol == Some(sym) {
        SidesNext(OwnMsgs(before, sym), BookMsgOf(v));
      }
    }
  }

  lemma {:induction false} DeltaQuotes(t: Track, ls: seq<Level>, n: nat)
    ensures TrackDelta(t, ls, n).truth == QuotedDelta(t.truth, ls)
    decreases |ls|
  {
    if ls != [] {
      DeltaQuotes(TrackUpdate(t, ls[0], n), ls[1..], n);
    }
  }

  lemma SideTruthNext(msgs: seq<SideMsg>, m: SideMsg, n: nat)
    ensures TrackRun(EMPTY_TRACK, msgs + [m], n) == TrackMsg(TrackRun(EMPTY_TRACK, msgs, n), m, n)
    ensures TrackRun(EMPTY_TRACK, [m], n) == TrackMsg(EMPTY_TRACK, m, n)
  {
    TrackRunSnoc(EMPTY_TRACK, msgs, m, n);
    assert [m][1..] == [];
  }

  /** The map beside a bid side is what the frames quote, and beside an ask side its mirror image. */
  lemma {:induction false} TruthsAre(frames: seq<DepthFrame>, sym: Str, n: nat)
    ensures TrackRun(EMPTY_TRACK, BidFeed(frames, sym), n).truth == QuotedBidsOf(frames, sym)
    ensures Negates(QuotedAsksOf(frames, sym), TrackRun(EMPTY_TRACK, AskFeed(frames, sym), n).truth)
  {
    if frames != [] {
      var v, before := frames[|frames| - 1], frames[..|frames| - 1];
      TruthsAre(before, sym, n);
      if v.data.Some? && v.data.value.symbol == Some(sym) {
        BidTruthNext(v, BidFeed(before, sym), QuotedBidsOf(before, sym), n);
        AskTruthNext(v, AskFeed(before, sym), QuotedAsksOf(before, sym), n);
      }
    }
  }

  lemma BidTruthNext(v: DepthFrame, msgs: seq<SideMsg>, truth: map<real, real>, n: nat)
    requires v.data.Some? && TrackRun(EMPTY_TRACK, msgs, n).truth == truth
    ensures TrackRun(EMPTY_TRACK, [Snapshot(v.data.value.bids)], n).truth == Quotes(v.data.value.bids)
    ensures TrackRun(EMPTY_TRACK, msgs + [Delta(v.data.value.bids)], n).truth == QuotedDelta(truth, v.data.value.bids)
  {
    var t := TrackRun(EMPTY_TRACK, msgs, n);
    SideTruthNext(msgs, Snapshot(v.data.value.bids), n);
    SideTruthNext(msgs, Delta(v.data.value.bids), n);
    DeltaQuotes(t, v.data.value.bids, n);
  }

  lemma AskTruthNext(v: DepthFrame, msgs: seq<SideMsg>, truth: map<real, real>, n: nat)
    requires v.data.Some? && Negates(truth, TrackRun(EMPTY_TRACK, msgs, n).truth)
    ensures Negates(Quotes(v.data.value.asks), TrackRun(EMPTY_TRACK, [Snapshot(Mirror(v.data.value.asks))], n).truth)
    ensures Negates(QuotedDelta(truth, v.data.value.asks),
                    TrackRun(EMPTY_TRACK, msgs + [Delta(Mirror(v.data.value.asks))], n).truth)
  {
    var t := TrackRun(EMPTY_TRACK, msgs, n);
    SideTruthNext(msgs, Snapshot(Mirror(v.data.value.asks)), n);
    SideTruthNext(msgs, Delta(Mirror(v.data.value.asks)), n);
    QuotesNegate(v.data.value.asks);
    DeltaNegates(t, truth, v.data.value.asks, n);
  }

  lemma TopFillsSlots(b: OB.Sides, v: DepthFrame, sym: Str, productType: ProductType, now: u64)
    requires v.data.Some?
    ensures var d := DepthRecord(v, sym, productType, OB.BookTopOf(b), now);
            && FillsSlots(d.bidPrices, d.bidVols, d.bidLevel, Top(b.bids, 5))
            && FillsSlots(d.askPrices, d.askVols, d.askLevel, Top(b.asks, 5))
  {
  }

  /** The five best levels of both sides are the best of all that the frames quote. */
  lemma BookIsTrue(frames: seq<DepthFrame>, sym: Str, b: OB.Sides)
    requires FewRemovals(frames, sym) && b == OB.BookRun(OB.NO_SIDES, OwnMsgs(frames, sym), BOOK_LEVELS)
    ensures IsTop(Top(b.bids, 5), QuotedBidsOf(frames, sym), 5)
    ensures IsLowest(Top(b.asks, 5), QuotedAsksOf(frames, sym), 5)
  {
    var own := OwnMsgs(frames, sym);
    FeedsAre(frames, sym);
    TruthsAre(frames, sym, 50);
    var bidGrid :| OB.FeedAccepted(OB.BidMsgs(own), bidGrid, 50);
    var askGrid :| OB.FeedAccepted(OB.AskMsgs(own), askGrid, 50);
    OB.Depth5IsTrue(own, bidGrid, askGrid, 50);
    var mirrored := TrackRun(EMPTY_TRACK, AskFeed(frames, sym), 50).truth;
    HighestMirrorsLowest(Top(b.asks, 5), QuotedAsksOf(frames, sym), mirrored, 5);
  }

  /** The record of a replay of these frames shows the true best quotes of both sides. */
  lemma RecordIsTrue(frames: seq<DepthFrame>, v: DepthFrame, sym: Str, productType: ProductType, top: OB.BookTop,
                     now: u64)
    requires v.data.Some? && top == OB.BookTopOf(OB.BookRun(OB.NO_SIDES, OwnMsgs(frames, sym), BOOK_LEVELS))
    requires FewRemovals(frames, sym)
    ensures ShowsBestQuotes(DepthRecord(v, sym, productType, top, now), frames, sym)
  {
    var b := OB.BookRun(OB.NO_SIDES, OwnMsgs(frames, sym), BOOK_LEVELS);
    BookIsTrue(frames, sym, b);
    TopFillsSlots(b, v, sym, productType, now);
  }

  lemma RecordCarries(v: DepthFrame, sym: Str, productType: ProductType, top: OB.BookTop, now: u64)
    requires v.data.Some?
    ensures Carries(DepthRecord(v, sym, productType, top, now), v, sym, productType, now)
  {
  }

  lemma EmittedRecord(frames: seq<DepthFrame>, v: DepthFrame, sym: Str, productType: ProductType, top: OB.BookTop,
                      now: u64)
    requires v.data.Some? && top == OB.BookTopOf(OB.BookRun(OB.NO_SIDES, OwnMsgs(frames, sym), BOOK_LEVELS))
    ensures var d := DepthRecord(v, sym, productType, top, now);
            && Carries(d, v, sym, productType, now)
            && (FewRemovals(frames, sym) ==> ShowsBestQuotes(d, frames, sym))
  {
    RecordCarries(v, sym, productType, top, now);
    if FewRemovals(frames, sym) {
      RecordIsTrue(frames, v, sym, productType, top, now);
    }
  }

  class DepthParser {
    const productType: ProductType
    var books: map<Str, OB.OrderBook>
    /** Every frame received so far. */
    ghost var received: seq<DepthFrame>
    /** What each book shows. */
    ghost var contents: map<Str, OB.Sides>

    ghost predicate BooksValid()
      reads `books, `contents, books.Values
    {
      && (forall s, t | s in books && t in books && s != t :: books[s] != books[t])
      && contents.Keys == books.Keys
      && (forall s | s in books :: books[s].n == BOOK_LEVELS && books[s].Contents() == contents[s])
    }

    ghost predicate Valid()
      reads this, books.Values
    {
      BooksValid() && LogHolds(contents, Handled(received))
    }

    constructor (productType: ProductType)
      ensures Valid() && fresh(books.Values) && received == [] && this.productType == productType
    {
      this.productType := productType;
      books, received, contents := map[], [], map[];
    }

    /** The depth record emitted for a symbol in an interleaved run is the one obtained by replaying
        only that symbol's messages from its last snapshot on. It carries what its frame says, and shows the
        best quotes of all that the symbol's frames quote when these removed few levels. */
    method ParseDepth(v: DepthFrame, now: u64) returns (out: seq<MarketDataMsg>)
      requires Valid()
      modifies this, books.Values
      ensures Valid() && fresh(books.Values - old(books.Values))
      ensures received == old(received) + [v]
      ensures v.data.None? || v.data.value.symbol.None? ==> out == []
      ensures v.data.Some? && v.data.value.symbol.Some? ==>
                var sym := v.data.value.symbol.value;
                && |out| == 1 && out[0].Depth5Msg? && Carries(out[0].depth, v, sym, productType, now)
                && (FewRemovals(received, sym) ==> ShowsBestQuotes(out[0].depth, received, sym))
                && var top := OB.BookTopOf(OB.BookRun(OB.NO_SIDES, OwnMsgs(received, sym), BOOK_LEVELS));
                   out[0].depth == DepthRecord(v, sym, productType, top, now)
    {
      ghost var before := received;
      received := received + [v];
      assert received[..|received| - 1] == before;
      if v.data.None? || v.data.value.symbol.None? {
        return [];
      }
      var sym := v.data.value.symbol.value;
      Handle(sym, BookMsgOf(v), before);
      var top := TopOf(sym);
      out := [Depth5Msg(DepthRecord(v, sym, productType, top, now))];
      EmittedRecord(received, v, sym, productType, top, now);
    }

    /** What the symbol's book shows. */
    method TopOf(sym: Str) returns (top: OB.BookTop)
      requires Valid() && sym in books
      ensures top == OB.BookTopOf(OB.BookRun(OB.NO_SIDES, OwnMsgs(received, sym), BOOK_LEVELS))
    {
      ReplayShows(contents, Handled(received), sym);
      top := books[sym].GetDepth5();
    }

    /** Apply a message to the symbol's book. */
    method Handle(sym: Str, m: OB.BookMsg, ghost before: seq<DepthFrame>)
      requires BooksValid() && LogHolds(contents, Handled(before))
      requires Handled(received) == Handled(before) + [(sym, m)]
      modifies this`books, this`contents, books.Values
      ensures Valid() && fresh(books.Values - old(books.Values)) && sym in books
    {
      LogNext(contents, Handled(before), sym, m);
      ApplyToEntry(sym, m);
    }

    /** The message applied to `entry(sym).or_default()`. */
    method ApplyToEntry(sym: Str, m: OB.BookMsg)
      requires BooksValid()
      modifies this`books, this`contents, books.Values
      ensures BooksValid() && sym in books && fresh(books.Values - old(books.Values))
      ensures contents == old(contents)[sym := OB.BookStep(EntryOf(old(contents), sym), m, BOOK_LEVELS)]
    {
      EntryOrDefault(sym);
      books[sym].Apply(m);
      MapOverwrite(old(contents), sym, EntryOf(old(contents), sym), books[sym].Contents());
      contents := contents[sym := books[sym].Contents()];
    }

    method EntryOrDefault(sym: Str)
      requires BooksValid()
      modifies this`books, this`contents
      ensures BooksValid() && sym in books && fresh(books.Values - old(books.Values))
      ensures forall s | s in old(books) :: s in books && books[s] == old(books[s])
      ensures contents == old(contents)[sym := EntryOf(old(contents), sym)]
    {
      if sym !in books {
        var added := new OB.OrderBook(BOOK_LEVELS);
        books, contents := books[sym := added], contents[sym := OB.NO_SIDES];
      }
    }
  }

  lemma MapOverwrite<K, V>(m: map<K, V>, k: K, a: V, b: V)
    ensures m[k := a][k := b] == m[k := b]
  {
  }

  ghost function EntryOf(contents: map<Str, OB.Sides>, sym: Str): OB.Sides {
    if sym in contents then contents[sym] else OB.NO_SIDES
  }

  /** The symbol's book is what the symbol's own messages make of it. */
  ghost predicate HoldsFor(contents: map<Str, OB.Sides>, handled: seq<(Str, OB.BookMsg)>, s: Str)
    requires s in contents
  {
    contents[s] == OB.BookRun(OB.NO_SIDES, Project(handled, s), BOOK_LEVELS)
  }

  /** So it is for every symbol that has a book, and no other symbol has been seen. */
  ghost predicate LogHolds(contents: map<Str, OB.Sides>, handled: seq<(Str, OB.BookMsg)>) {
    && (forall s {:trigger HoldsFor(contents, handled, s)} | s in contents :: HoldsFor(contents, handled, s))
    && forall s | s !in contents :: Project(handled, s) == []
  }

  /** A symbol's book shows what a replay of the symbol's messages from its last snapshot shows. */
  lemma ReplayShows(contents: map<Str, OB.Sides>, handled: seq<(Str, OB.BookMsg)>, sym: Str)
    requires LogHolds(contents, handled) && sym in contents
    ensures contents[sym] == OB.BookRun(OB.NO_SIDES, OB.SinceSnapshot(Project(handled, sym)), BOOK_LEVELS)
  {
    assert HoldsFor(contents, handled, sym);
    OB.SnapshotForgets(OB.NO_SIDES, OB.NO_SIDES, Project(handled, sym), BOOK_LEVELS);
  }

  /** One more message for a symbol: its book steps and the others stay. */
  lemma LogNext(contents: map<Str, OB.Sides>, handled: seq<(Str, OB.BookMsg)>, sym: Str, m: OB.BookMsg)
    requires LogHolds(contents, handled)
    ensures LogHolds(contents[sym := OB.BookStep(EntryOf(contents, sym), m, BOOK_LEVELS)], handled + [(sym, m)])
  {
    if sym in contents {
      assert HoldsFor(contents, handled, sym);
    }
    OwnNext(EntryOf(contents, sym), handled, sym, m);
    var after := contents[sym := OB.BookStep(EntryOf(contents, sym), m, BOOK_LEVELS)];
    forall s | s in after
      ensures HoldsFor(after, handled + [(sym, m)], s)
    {
      ProjectSnoc(handled, sym, m, s);
      if s != sym { assert HoldsFor(contents, handled, s); }
    }
    forall s | s !in after
      ensures Project(handled + [(sym, m)], s) == []
    {
      ProjectSnoc(handled, sym, m, s);
    }
  }

  lemma OwnNext(sides: OB.Sides, handled: seq<(Str, OB.BookMsg)>, sym: Str, m: OB.BookMsg)
    requires sides == OB.BookRun(OB.NO_SIDES, Project(handled, sym), BOOK_LEVELS)
    ensures OB.BookStep(sides, m, BOOK_LEVELS)
            == OB.BookRun(OB.NO_SIDES, Project(handled + [(sym, m)], sym), BOOK_LEVELS)
  {
    ProjectSnoc(handled, sym, m, sym);
    OB.RunSnoc(OB.NO_SIDES, Project(handled, sym), m, BOOK_LEVELS);
  }
}
