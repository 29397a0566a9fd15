/** The binary stream from end to end: encoded frames through the parser, the channel, the dedup loop and the
    bytes of the rings to what a reader of the rings finds. */
module Pipeline {
  import opened Bytes
  import opened Symbols
  import opened MarketData
  import opened Streams
  import opened ShmLayout
  import opened ShmStore
  import opened SbeParser
  import opened SbeCodec
  import opened DedupWorker
  import opened DedupEndToEnd
  import opened DedupRings
  import opened RecordImages

  // ---------------------------------------------------------------------------
  // The receiving side
  // ---------------------------------------------------------------------------

  /** A frame as it comes from the socket: its bytes, the clock, and which of its messages find the channel to
      the dedup loop full. Those are dropped. */
  datatype Received = Received(data: seq<byte>, now: u64, full: set<nat>)

  function Passed(msgs: seq<MarketDataMsg>, full: set<nat>): seq<MarketDataMsg> {
    if msgs == [] then []
    else
      var n := |msgs| - 1;
      Passed(msgs[..n], full) + if n in full then [] else [msgs[n]]
  }

  lemma PassedNext(msgs: seq<MarketDataMsg>, full: set<nat>, i: nat)
    requires i < |msgs|
    ensures Passed(msgs[..i + 1], full) == Passed(msgs[..i], full) + if i in full then [] else [msgs[i]]
  {
    assert msgs[..i + 1][..i] == msgs[..i];
  }

  /** The positions below `n` that are not in `full`, in order. */
  function Free(n: nat, full: set<nat>): seq<nat> {
    if n == 0 then [] else Free(n - 1, full) + if n - 1 in full then [] else [n - 1]
  }

  lemma {:induction false} FreeInOrder(n: nat, full: set<nat>)
    ensures forall i | 0 <= i < |Free(n, full)| :: Free(n, full)[i] < n && Free(n, full)[i] !in full
    ensures forall i, j | 0 <= i < j < |Free(n, full)| :: Free(n, full)[i] < Free(n, full)[j]
  {
    if n > 0 {
      FreeInOrder(n - 1, full);
    }
  }

  lemma {:induction false} FreeHasAll(n: nat, full: set<nat>, q: nat)
    requires q < n && q !in full
    ensures q in Free(n, full)
  {
    if q < n - 1 {
      FreeHasAll(n - 1, full, q);
    }
  }

  lemma {:induction false} PassedAtFree(msgs: seq<MarketDataMsg>, full: set<nat>)
    ensures var p := Free(|msgs|, full);
            && |Passed(msgs, full)| == |p|
            && forall i | 0 <= i < |p| :: p[i] < |msgs| && Passed(msgs, full)[i] == msgs[p[i]]
  {
    if msgs != [] {
      PassedAtFree(msgs[..|msgs| - 1], full);
    }
  }

  /** What is sent are the messages at the positions not in `full`, in order. */
  lemma PassedPositions(msgs: seq<MarketDataMsg>, full: set<nat>) returns (p: seq<nat>)
    ensures |p| == |Passed(msgs, full)|
    ensures forall i | 0 <= i < |p| :: p[i] < |msgs| && p[i] !in full && Passed(msgs, full)[i] == msgs[p[i]]
    ensures forall i, j | 0 <= i < j < |p| :: p[i] < p[j]
    ensures forall q: nat | q < |msgs| && q !in full :: q in p
  {
    p := Free(|msgs|, full);
    FreeInOrder(|msgs|, full);
    PassedAtFree(msgs, full);
    forall q: nat | q < |msgs| && q !in full
      ensures q in p
    {
      FreeHasAll(|msgs|, full, q);
    }
  }

  predicate Readable(frames: seq<Received>) {
    forall j | 0 <= j < |frames| :: MessageReadable(frames[j].data)
  }

  /** The messages of each frame that the channel had room for. */
  function PassedOf(frames: seq<Received>): (parts: seq<seq<MarketDataMsg>>)
    requires Readable(frames)
  {
    seq(|frames|, j requires 0 <= j < |frames| => Passed(MessagesIn(frames[j].data, frames[j].now), frames[j].full))
  }

  /** What comes out of the channel after these frames. */
  function Arrived(frames: seq<Received>): seq<MarketDataMsg>
    requires Readable(frames)
  {
    Flatten(PassedOf(frames))
  }

  /** The callback of a binary connection. */
  method OnBinary(frame: Received) returns (sent: seq<MarketDataMsg>)
    requires MessageReadable(frame.data)
    ensures sent == Passed(MessagesIn(frame.data, frame.now), frame.full)
  {
    var msgs := ParseSbeMessage(frame.data, frame.now);
    sent := [];
    for i := 0 to |msgs|
      invariant sent == Passed(msgs[..i], frame.full)
    {
      PassedNext(msgs, frame.full, i);
      if i !in frame.full {
        sent := sent + [msgs[i]];
      }
    }
    assert msgs[..|msgs|] == msgs;
  }

  method ReceiveFrames(frames: seq<Received>) returns (arrivals: seq<MarketDataMsg>)
    requires Readable(frames)
    ensures arrivals == Arrived(frames)
  {
    arrivals := [];
    ghost var parts := PassedOf(frames);
    for j := 0 to |frames|
      invariant arrivals == Flatten(parts[..j])
    {
      var sent := OnBinary(frames[j]);
      assert parts[..j + 1][..j] == parts[..j];
      arrivals := arrivals + sent;
    }
    assert parts[..|frames|] == parts;
  }

  // ---------------------------------------------------------------------------
  // The sending side
  // ---------------------------------------------------------------------------

  /** A message, the header fields and trailing bytes it is sent with, and the circumstances of its arrival. */
  datatype Delivery = Delivery(m: SbeMsg, rootLength: u16, schema: u16, version: u16, rest: seq<byte>, now: u64,
                               full: set<nat>)

  predicate AllWellFormed(ds: seq<Delivery>) {
    forall j | 0 <= j < |ds| :: WellFormed(ds[j].m)
  }

  function FrameOf(d: Delivery): Received
    requires WellFormed(d.m)
  {
    Received(Encode(d.m, d.rootLength, d.schema, d.version) + d.rest, d.now, d.full)
  }

  function Frames(ds: seq<Delivery>): (frames: seq<Received>)
    requires AllWellFormed(ds)
  {
    seq(|ds|, j requires 0 <= j < |ds| => FrameOf(ds[j]))
  }

  /** What a delivery says, as far as the channel had room for it. */
  function SaidBy(d: Delivery): seq<MarketDataMsg>
    requires WellFormed(d.m)
  {
    Passed(Meaning(d.m, d.now), d.full)
  }

  function SaidOf(ds: seq<Delivery>): (parts: seq<seq<MarketDataMsg>>)
    requires AllWellFormed(ds)
  {
    seq(|ds|, j requires 0 <= j < |ds| => SaidBy(ds[j]))
  }

  function Said(ds: seq<Delivery>): seq<MarketDataMsg>
    requires AllWellFormed(ds)
  {
    Flatten(SaidOf(ds))
  }

  lemma FrameSays(d: Delivery)
    requires WellFormed(d.m)
    ensures MessageReadable(FrameOf(d).data)
    ensures Passed(MessagesIn(FrameOf(d).data, FrameOf(d).now), FrameOf(d).full) == SaidBy(d)
  {
    DecodeEncode(d.m, d.rootLength, d.schema, d.version, d.rest, d.now);
  }

  /** Encoded, received and parsed, the deliveries arrive as what they say. */
  lemma ArrivedIsSaid(ds: seq<Delivery>)
    requires AllWellFormed(ds)
    ensures Readable(Frames(ds)) && Arrived(Frames(ds)) == Said(ds)
  {
    forall j | 0 <= j < |ds|
      ensures MessageReadable(Frames(ds)[j].data)
    {
      FrameSays(ds[j]);
    }
    forall j | 0 <= j < |ds|
      ensures PassedOf(Frames(ds))[j] == SaidOf(ds)[j]
    {
      FrameSays(ds[j]);
    }
    assert PassedOf(Frames(ds)) == SaidOf(ds);
  }

  // ---------------------------------------------------------------------------
  // What readers find
  // ---------------------------------------------------------------------------

  /** Nothing said for this kind and symbol up to delivery `t` has an id above (or, earlier than `j`, as high as)
      this one. */
  predicate NotAbove(ds: seq<Delivery>, t: nat, j: nat, id: u64, k: Kind, s: Str)
    requires t < |ds| && AllWellFormed(ds)
  {
    forall o | o in SaidBy(ds[t]) && InStream(o, k, s) :: IdOf(o) <= id && (t < j ==> IdOf(o) < id)
  }

  /** Delivery `j` is the first to say the highest id for this kind and symbol, in the message `m`. */
  ghost predicate FirstToSay(ds: seq<Delivery>, j: nat, m: MarketDataMsg, k: Kind, s: Str)
    requires AllWellFormed(ds)
  {
    && j < |ds| && m in SaidBy(ds[j]) && InStream(m, k, s)
    && forall t: nat | t < |ds| :: NotAbove(ds, t, j, IdOf(m), k, s)
  }

  ghost predicate NothingSaid(ds: seq<Delivery>, k: Kind, s: Str)
    requires AllWellFormed(ds)
  {
    forall t: nat | t < |ds| :: NotAbove(ds, t, 0, 0, k, s)
  }

  lemma HighestWasSaid(ds: seq<Delivery>, i: nat, k: Kind, s: Str) returns (j: nat)
    requires AllWellFormed(ds) && FirstOfHighest(Said(ds), i, k, s)
    ensures FirstToSay(ds, j, Said(ds)[i], k, s)
  {
    var parts := SaidOf(ds);
    var q: nat;
    j, q := ElementFrom(parts, i);
    forall t: nat | t < |ds|
      ensures NotAbove(ds, t, j, IdOf(Said(ds)[i]), k, s)
    {
      forall o | o in parts[t] && InStream(o, k, s)
        ensures IdOf(o) <= IdOf(Said(ds)[i]) && (t < j ==> IdOf(o) < IdOf(Said(ds)[i]))
      {
        var e :| 0 <= e < |parts[t]| && parts[t][e] == o;
        var p := ElementAt(parts, t, e);
        if t < j {
          PartsInOrder(parts, t + 1, j);
        }
      }
    }
  }

  lemma NothingWasSaid(ds: seq<Delivery>, k: Kind, s: Str)
    requires AllWellFormed(ds) && AllZero(Said(ds), k, s)
    ensures NothingSaid(ds, k, s)
  {
    var parts := SaidOf(ds);
    forall t: nat | t < |ds|
      ensures NotAbove(ds, t, 0, 0, k, s)
    {
      forall o | o in parts[t] && InStream(o, k, s)
        ensures IdOf(o) == 0
      {
        var e :| 0 <= e < |parts[t]| && parts[t][e] == o;
        var p := ElementAt(parts, t, e);
      }
    }
  }

  /** What a reader finds for a symbol: the record of the first delivery to say the highest id, as the bytes of
      a cell keep it; nothing exactly when nothing with an id above zero was said. */
  ghost predicate ReaderFinds<T(!new)>(latest: Option<T>, ds: seq<Delivery>, k: Kind, s: Str, image: Image<T>,
                                       tag: T -> MarketDataMsg)
    requires AllWellFormed(ds)
  {
    match latest
    case None => NothingSaid(ds, k, s)
    case Some(y) => exists j: nat, x: T :: FirstToSay(ds, j, tag(x), k, s) && IdOf(tag(x)) > 0 && y == image.Kept(x)
  }

  lemma LatestIsFound<T(!new)>(latest: Option<T>, ds: seq<Delivery>, k: Kind, s: Str, image: Image<T>,
                               tag: T -> MarketDataMsg)
    requires AllWellFormed(ds) && IsLatest(latest, Said(ds), k, s, image, tag)
    ensures ReaderFinds(latest, ds, k, s, image, tag)
  {
    if latest == None {
      NothingWasSaid(ds, k, s);
    } else {
      var i, x := LatestFrom(latest.value, Said(ds), k, s, image, tag);
      var j := HighestWasSaid(ds, i, k, s);
    }
  }

  // ---------------------------------------------------------------------------
  // In terms of the frames
  // ---------------------------------------------------------------------------

  lemma {:induction false} PassedFrom(msgs: seq<MarketDataMsg>, full: set<nat>, m: MarketDataMsg)
    ensures m in Passed(msgs, full) ==> m in msgs
    ensures full == {} ==> Passed(msgs, full) == msgs
  {
    if msgs != [] {
      PassedFrom(msgs[..|msgs| - 1], full, m);
    }
  }

  /** Prices and quantities are sent with eight decimals. */
  predicate AllEightDecimals(ds: seq<Delivery>) {
    forall j | 0 <= j < |ds| :: ds[j].m.root.priceExp == -8 && ds[j].m.root.qtyExp == -8
  }

  lemma EightDecimalsFit(mantissa: i64)
    ensures Fits(Decimal(mantissa, -8))
  {
    UnitsFit(mantissa);
    TableIsPowers(-8);
    assert POW10[10] == 1.0 / 100000000.0;
  }

  lemma SideFits(r: Root, levels: seq<Level>)
    requires r.priceExp == -8 && r.qtyExp == -8
    ensures forall i | 0 <= i < 5 :: Fits(SideOf(r, levels).prices[i]) && Fits(SideOf(r, levels).vols[i])
  {
    UnitsFit(0);
    forall i | 0 <= i < 5
      ensures Fits(SideOf(r, levels).prices[i]) && Fits(SideOf(r, levels).vols[i])
    {
      if i < |levels| {
        EightDecimalsFit(levels[i].price);
        EightDecimalsFit(levels[i].qty);
      }
    }
  }

  lemma MeaningFits(m: SbeMsg, now: u64)
    requires WellFormed(m) && m.root.priceExp == -8 && m.root.qtyExp == -8
    ensures forall i | 0 <= i < |Meaning(m, now)| :: MsgFits(Meaning(m, now)[i])
  {
    match m {
      case BestBidAsk(_, bidPrice, bidQty, askPrice, askQty, _) =>
        EightDecimalsFit(bidPrice);
        EightDecimalsFit(bidQty);
        EightDecimalsFit(askPrice);
        EightDecimalsFit(askQty);
      case TradeGroup(r, _, entries, _) =>
        forall i | 0 <= i < |entries|
          ensures MsgFits(Meaning(m, now)[i])
        {
          EightDecimalsFit(entries[i].price);
          EightDecimalsFit(entries[i].qty);
        }
      case DepthGroups(r, _, bids, _, asks, _) =>
        SideFits(r, bids);
        SideFits(r, asks);
    }
  }

  lemma SaidFits(ds: seq<Delivery>, j: nat, m: MarketDataMsg)
    requires AllWellFormed(ds) && AllEightDecimals(ds) && j < |ds| && m in SaidBy(ds[j])
    ensures MsgFits(m)
  {
    PassedFrom(Meaning(ds[j].m, ds[j].now), ds[j].full, m);
    MeaningFits(ds[j].m, ds[j].now);
  }

  /** The message that the first delivery to say the highest id said. */
  ghost predicate SaidExactly(latest: Option<MarketDataMsg>, ds: seq<Delivery>, k: Kind, s: Str)
    requires AllWellFormed(ds)
  {
    match latest
    case None => NothingSaid(ds, k, s)
    case Some(m) => IdOf(m) > 0 && exists j: nat :: FirstToSay(ds, j, m, k, s)
  }

  lemma FoundFrom<T(!new)>(y: T, ds: seq<Delivery>, k: Kind, s: Str, image: Image<T>, tag: T -> MarketDataMsg)
    returns (j: nat, x: T)
    requires AllWellFormed(ds) && AllEightDecimals(ds) && ReaderFinds(Some(y), ds, k, s, image, tag)
    ensures FirstToSay(ds, j, tag(x), k, s) && IdOf(tag(x)) > 0 && y == image.Kept(x) && MsgFits(tag(x))
  {
    j, x :| FirstToSay(ds, j, tag(x), k, s) && IdOf(tag(x)) > 0 && y == image.Kept(x);
    SaidFits(ds, j, tag(x));
  }

  lemma SaidIsExact<T(!new)>(latest: Option<T>, ds: seq<Delivery>, j: nat, k: Kind, s: Str, tag: T -> MarketDataMsg)
    requires AllWellFormed(ds) && latest.Some?
    requires FirstToSay(ds, j, tag(latest.value), k, s) && IdOf(tag(latest.value)) > 0
    ensures SaidExactly(TagOption(latest, tag), ds, k, s)
  {
  }

  lemma BboFitsCell(x: Bookticker)
    requires MsgFits(TagBbo(x))
    ensures BBO_IMAGE.Kept(x) == x
  {
    BboKept(x);
  }

  lemma BboSaidExactly(latest: Option<Bookticker>, ds: seq<Delivery>, s: Str)
    requires AllWellFormed(ds) && AllEightDecimals(ds) && ReaderFinds(latest, ds, Bbo, s, BBO_IMAGE, TagBbo)
    ensures SaidExactly(TagOption(latest, TagBbo), ds, Bbo, s)
  {
    if latest.Some? {
      var j, x := FoundFrom(latest.value, ds, Bbo, s, BBO_IMAGE, TagBbo);
      BboFitsCell(x);
      SaidIsExact(latest, ds, j, Bbo, s, TagBbo);
    }
  }

  lemma TradeFitsCell(x: Trade)
    requires MsgFits(TagTrade(x))
    ensures TRADE_IMAGE.Kept(x) == x
  {
    TradeKept(x);
  }

  lemma TradeSaidExactly(latest: Option<Trade>, ds: seq<Delivery>, s: Str)
    requires AllWellFormed(ds) && AllEightDecimals(ds) && ReaderFinds(latest, ds, Trades, s, TRADE_IMAGE, TagTrade)
    ensures SaidExactly(TagOption(latest, TagTrade), ds, Trades, s)
  {
    if latest.Some? {
      var j, x := FoundFrom(latest.value, ds, Trades, s, TRADE_IMAGE, TagTrade);
      TradeFitsCell(x);
      SaidIsExact(latest, ds, j, Trades, s, TagTrade);
    }
  }

  lemma DepthFitsCell(x: Depth5)
    requires MsgFits(TagDepth(x))
    ensures DEPTH_IMAGE.Kept(x) == x
  {
    DepthKept(x);
  }

  lemma DepthSaidExactly(latest: Option<Depth5>, ds: seq<Delivery>, s: Str)
    requires AllWellFormed(ds) && AllEightDecimals(ds) && ReaderFinds(latest, ds, Depth, s, DEPTH_IMAGE, TagDepth)
    ensures SaidExactly(TagOption(latest, TagDepth), ds, Depth, s)
  {
    if latest.Some? {
      var j, x := FoundFrom(latest.value, ds, Depth, s, DEPTH_IMAGE, TagDepth);
      DepthFitsCell(x);
      SaidIsExact(latest, ds, j, Depth, s, TagDepth);
    }
  }

  /** The frames of depth messages that bear this symbol. */
  predicate DepthFor(d: Delivery, s: Str) {
    d.m.DepthGroups? && SymbolFromBytes(SymbolOf(d.m)) == s
  }

  lemma DepthFrameSays(d: Delivery, s: Str)
    requires WellFormed(d.m) && DepthFor(d, s) && d.full == {}
    ensures var said := Meaning(d.m, d.now);
            |said| == 1 && said[0] in SaidBy(d) && InStream(said[0], Depth, s) && IdOf(said[0]) == d.m.root.second
  {
    PassedFrom(Meaning(d.m, d.now), d.full, Meaning(d.m, d.now)[0]);
  }

  lemma DepthIsFromFrame(d: Delivery, m: MarketDataMsg, s: Str)
    requires WellFormed(d.m) && m in SaidBy(d) && InStream(m, Depth, s)
    ensures DepthFor(d, s) && Meaning(d.m, d.now) == [m] && IdOf(m) == d.m.root.second
  {
    PassedFrom(Meaning(d.m, d.now), d.full, m);
  }

  /** When the channel always has room, the first to say the highest id is the first depth frame for the symbol
      with the highest update id, and the message is all it says. */
  lemma NewestDepthFrame(ds: seq<Delivery>, j: nat, m: MarketDataMsg, s: Str)
    requires AllWellFormed(ds) && FirstToSay(ds, j, m, Depth, s)
    requires forall t | 0 <= t < |ds| :: ds[t].full == {}
    ensures DepthFor(ds[j], s) && Meaning(ds[j].m, ds[j].now) == [m]
    ensures forall t | 0 <= t < |ds| && DepthFor(ds[t], s) ::
              ds[t].m.root.second <= ds[j].m.root.second && (t < j ==> ds[t].m.root.second < ds[j].m.root.second)
  {
    DepthIsFromFrame(ds[j], m, s);
    forall t | 0 <= t < |ds| && DepthFor(ds[t], s)
      ensures ds[t].m.root.second <= ds[j].m.root.second && (t < j ==> ds[t].m.root.second < ds[j].m.root.second)
    {
      DepthFrameSays(ds[t], s);
      assert NotAbove(ds, t, j, IdOf(m), Depth, s);
    }
  }

  predicate QuoteFor(d: Delivery, s: Str) {
    d.m.BestBidAsk? && SymbolFromBytes(SymbolOf(d.m)) == s
  }

  lemma QuoteFrameSays(d: Delivery, s: Str)
    requires WellFormed(d.m) && QuoteFor(d, s) && d.full == {}
    ensures var said := Meaning(d.m, d.now);
            |said| == 1 && said[0] in SaidBy(d) && InStream(said[0], Bbo, s) && IdOf(said[0]) == d.m.root.second
  {
    PassedFrom(Meaning(d.m, d.now), d.full, Meaning(d.m, d.now)[0]);
  }

  lemma QuoteIsFromFrame(d: Delivery, m: MarketDataMsg, s: Str)
    requires WellFormed(d.m) && m in SaidBy(d) && InStream(m, Bbo, s)
    ensures QuoteFor(d, s) && Meaning(d.m, d.now) == [m] && IdOf(m) == d.m.root.second
  {
    PassedFrom(Meaning(d.m, d.now), d.full, m);
  }

  /** So it is for quotes. */
  lemma NewestQuoteFrame(ds: seq<Delivery>, j: nat, m: MarketDataMsg, s: Str)
    requires AllWellFormed(ds) && FirstToSay(ds, j, m, Bbo, s)
    requires forall t | 0 <= t < |ds| :: ds[t].full == {}
    ensures QuoteFor(ds[j], s) && Meaning(ds[j].m, ds[j].now) == [m]
    ensures forall t | 0 <= t < |ds| && QuoteFor(ds[t], s) ::
              ds[t].m.root.second <= ds[j].m.root.second && (t < j ==> ds[t].m.root.second < ds[j].m.root.second)
  {
    QuoteIsFromFrame(ds[j], m, s);
    forall t | 0 <= t < |ds| && QuoteFor(ds[t], s)
      ensures ds[t].m.root.second <= ds[j].m.root.second && (t < j ==> ds[t].m.root.second < ds[j].m.root.second)
    {
      QuoteFrameSays(ds[t], s);
      assert NotAbove(ds, t, j, IdOf(m), Bbo, s);
    }
  }

  predicate TradesFor(d: Delivery, s: Str) {
    d.m.TradeGroup? && SymbolFromBytes(SymbolOf(d.m)) == s
  }

  lemma EntryIsSaid(d: Delivery, s: Str, e: nat)
    requires WellFormed(d.m) && TradesFor(d, s) && d.full == {} && e < |d.m.entries|
    ensures var t := TradeMsg(TradeOf(d.m.root, d.m.entries[e], SymbolOf(d.m), d.now));
            t in SaidBy(d) && InStream(t, Trades, s) && IdOf(t) == d.m.entries[e].id
  {
    var said := Meaning(d.m, d.now);
    PassedFrom(said, d.full, said[e]);
    assert said[e] == TradeMsg(TradeOf(d.m.root, d.m.entries[e], SymbolOf(d.m), d.now));
  }

  lemma TradeIsFromEntry(d: Delivery, m: MarketDataMsg, s: Str) returns (e: nat)
    requires WellFormed(d.m) && m in SaidBy(d) && InStream(m, Trades, s)
    ensures TradesFor(d, s) && e < |d.m.entries|
    ensures m == TradeMsg(TradeOf(d.m.root, d.m.entries[e], SymbolOf(d.m), d.now)) && IdOf(m) == d.m.entries[e].id
  {
    var said := Meaning(d.m, d.now);
    PassedFrom(said, d.full, m);
    e :| 0 <= e < |said| && said[e] == m;
  }

  /** No entry of this frame has a higher trade id (or, in an earlier frame, as high an id). */
  predicate EntriesNotAbove(d: Delivery, id: u64, earlier: bool) {
    d.m.TradeGroup? ==>
      forall e | 0 <= e < |d.m.entries| :: d.m.entries[e].id <= id && (earlier ==> d.m.entries[e].id < id)
  }

  /** And for trades it is one of the entries with the highest trade id, of the first frame to hold one. */
  lemma NewestTradeEntry(ds: seq<Delivery>, j: nat, m: MarketDataMsg, s: Str) returns (e: nat)
    requires AllWellFormed(ds) && FirstToSay(ds, j, m, Trades, s)
    requires forall t | 0 <= t < |ds| :: ds[t].full == {}
    ensures TradesFor(ds[j], s) && e < |ds[j].m.entries|
    ensures m == TradeMsg(TradeOf(ds[j].m.root, ds[j].m.entries[e], SymbolOf(ds[j].m), ds[j].now))
    ensures forall t | 0 <= t < |ds| && TradesFor(ds[t], s) :: EntriesNotAbove(ds[t], ds[j].m.entries[e].id, t < j)
  {
    e := TradeIsFromEntry(ds[j], m, s);
    forall t, i | 0 <= t < |ds| && TradesFor(ds[t], s) && 0 <= i < |ds[t].m.entries|
      ensures ds[t].m.entries[i].id <= IdOf(m) && (t < j ==> ds[t].m.entries[i].id < IdOf(m))
    {
      EntryIsSaid(ds[t], s, i);
      assert NotAbove(ds, t, j, IdOf(m), Trades, s);
    }
  }

  /** Frames in, records out: for any messages, sent in any order and any number of times, with any of them
      lost to a full channel, a reader of a configured symbol finds what ReaderFinds says. */
  method FramesToReaders(ds: seq<Delivery>, symbols: seq<Str>, bufferSize: u32, udp: bool, showId: u64 -> Str, sym: Str)
    returns (bbo: Option<Bookticker>, trade: Option<Trade>, depth: Option<Depth5>)
    requires bufferSize > 0 && sym in symbols && AllWellFormed(ds) && |Said(ds)| <= I64_MAX
    ensures ReaderFinds(bbo, ds, Bbo, sym, BBO_IMAGE, TagBbo)
    ensures ReaderFinds(trade, ds, Trades, sym, TRADE_IMAGE, TagTrade)
    ensures ReaderFinds(depth, ds, Depth, sym, DEPTH_IMAGE, TagDepth)
    ensures AllEightDecimals(ds) ==>
              && SaidExactly(TagOption(bbo, TagBbo), ds, Bbo, sym)
              && SaidExactly(TagOption(trade, TagTrade), ds, Trades, sym)
              && SaidExactly(TagOption(depth, TagDepth), ds, Depth, sym)
  {
    ArrivedIsSaid(ds);
    var arrivals := ReceiveFrames(Frames(ds));
    bbo, trade, depth := LatestOfBinaryStores(arrivals, symbols, bufferSize, udp, showId, sym);
    LatestIsFound(bbo, ds, Bbo, sym, BBO_IMAGE, TagBbo);
    LatestIsFound(trade, ds, Trades, sym, TRADE_IMAGE, TagTrade);
    LatestIsFound(depth, ds, Depth, sym, DEPTH_IMAGE, TagDepth);
    if AllEightDecimals(ds) {
      BboSaidExactly(bbo, ds, sym);
      TradeSaidExactly(trade, ds, sym);
      DepthSaidExactly(depth, ds, sym);
    }
  }

  method LatestOfBinaryStores(msgs: seq<MarketDataMsg>, symbols: seq<Str>, bufferSize: u32, udp: bool,
                              showId: u64 -> Str, sym: Str)
    returns (bbo: Option<Bookticker>, trade: Option<Trade>, depth: Option<Depth5>)
    requires bufferSize > 0 && |msgs| <= I64_MAX && sym in symbols
    ensures IsLatest(bbo, msgs, Bbo, sym, BBO_IMAGE, TagBbo)
    ensures IsLatest(trade, msgs, Trades, sym, TRADE_IMAGE, TagTrade)
    ensures IsLatest(depth, msgs, Depth, sym, DEPTH_IMAGE, TagDepth)
  {
    var stores := CreateBinaryStores(symbols, bufferSize);
    NothingStoredHasRoom(symbols, |msgs|);
    ghost var first := stores.Contents();
    var agg: Option<AggTrade>;
    bbo, agg, trade, depth := LatestOfEachKind(msgs, stores, udp, showId, sym);
    assert Serves(stores.bbo, sym) && Serves(stores.trade, sym) && Serves(stores.depth5, sym) by {
      assert sym in first.bbo && sym in first.trade && sym in first.depth5;
    }
  }
}
