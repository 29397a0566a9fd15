/** An encoder for the three Simple Binary Encoding messages, and the proof that the parser inverts it. */
module SbeCodec {
  import opened Bytes
  import opened Multiples
  import opened Symbols
  import opened MarketData
  import opened Streams
  import opened SbeParser

  // ---------------------------------------------------------------------------
  // Messages on the wire
  // ---------------------------------------------------------------------------

  datatype Root = Root(first: u64, second: u64, priceExp: i8, qtyExp: i8)

  /** Group entries may carry fields this parser does not know; they are the padding. */
  datatype Entry = Entry(id: u64, price: i64, qty: i64, maker: byte, padding: seq<byte>)

  datatype Level = Level(price: i64, qty: i64, padding: seq<byte>)

  datatype SbeMsg =
    | BestBidAsk(root: Root, bidPrice: i64, bidQty: i64, askPrice: i64, askQty: i64, symbol: seq<byte>)
    | TradeGroup(root: Root, block: u16, entries: seq<Entry>, symbol: seq<byte>)
    | DepthGroups(root: Root, bidBlock: u16, bids: seq<Level>, askBlock: u16, asks: seq<Level>, symbol: seq<byte>)

  predicate EntriesFill(block: u16, entries: seq<Entry>) {
    |entries| < 0x1_0000_0000 && forall i | 0 <= i < |entries| :: 25 + |entries[i].padding| == block
  }

  predicate LevelsFill(block: u16, levels: seq<Level>) {
    |levels| < 0x1_0000 && forall i | 0 <= i < |levels| :: 16 + |levels[i].padding| == block
  }

  predicate WellFormed(m: SbeMsg) {
    && InTable(m.root.priceExp) && InTable(m.root.qtyExp) && |m.symbol| < 0x100
    && match m
       case BestBidAsk(_, _, _, _, _, _) => true
       case TradeGroup(_, block, entries, _) => EntriesFill(block, entries)
       case DepthGroups(_, bidBlock, bids, askBlock, asks, _) =>
         LevelsFill(bidBlock, bids) && LevelsFill(askBlock, asks)
  }

  // ---------------------------------------------------------------------------
  // Encoder
  // ---------------------------------------------------------------------------

  function EncodeRoot(r: Root): (s: seq<byte>)
    ensures |s| == ROOT_SIZE
  {
    U64Bytes(r.first) + (U64Bytes(r.second) + [ByteOfI8(r.priceExp), ByteOfI8(r.qtyExp)])
  }

  function EncodeEntry(e: Entry): seq<byte> {
    U64Bytes(e.id) + (I64Bytes(e.price) + (I64Bytes(e.qty) + ([e.maker] + e.padding)))
  }

  function EncodeLevel(l: Level): seq<byte> {
    I64Bytes(l.price) + (I64Bytes(l.qty) + l.padding)
  }

  function Entries(entries: seq<Entry>): seq<seq<byte>> {
    seq(|entries|, i requires 0 <= i < |entries| => EncodeEntry(entries[i]))
  }

  function Levels(levels: seq<Level>): seq<seq<byte>> {
    seq(|levels|, i requires 0 <= i < |levels| => EncodeLevel(levels[i]))
  }

  function EncodeString(s: seq<byte>): seq<byte>
    requires |s| < 0x100
  {
    [|s|] + s
  }

  function EncodeLevels(block: u16, levels: seq<Level>): seq<byte>
    requires |levels| < 0x1_0000
  {
    U16Bytes(block) + (U16Bytes(|levels|) + Flatten(Levels(levels)))
  }

  function EncodeBody(m: SbeMsg): seq<byte>
    requires WellFormed(m)
  {
    EncodeRoot(m.root) +
    match m
    case BestBidAsk(_, bidPrice, bidQty, askPrice, askQty, symbol) =>
      I64Bytes(bidPrice) + (I64Bytes(bidQty) + (I64Bytes(askPrice) + (I64Bytes(askQty) + EncodeString(symbol))))
    case TradeGroup(_, block, entries, symbol) =>
      U16Bytes(block) + (U32Bytes(|entries|) + (Flatten(Entries(entries)) + EncodeString(symbol)))
    case DepthGroups(_, bidBlock, bids, askBlock, asks, symbol) =>
      EncodeLevels(bidBlock, bids) + (EncodeLevels(askBlock, asks) + EncodeString(symbol))
  }

  function Template(m: SbeMsg): u16 {
    match m
    case BestBidAsk(_, _, _, _, _, _) => TEMPLATE_BEST_BID_ASK
    case TradeGroup(_, _, _, _) => TEMPLATE_TRADES
    case DepthGroups(_, _, _, _, _, _) => TEMPLATE_DEPTH
  }

  /** The parser does not look at the root block length, schema and version. */
  function Encode(m: SbeMsg, rootLength: u16, schema: u16, version: u16): seq<byte>
    requires WellFormed(m)
  {
    U16Bytes(rootLength) + (U16Bytes(Template(m)) + (U16Bytes(schema) + (U16Bytes(version) + EncodeBody(m))))
  }

  // ---------------------------------------------------------------------------
  // What a wire message says
  // ---------------------------------------------------------------------------

  function SymbolOf(m: SbeMsg): SymbolBuf {
    SymbolToBytes(StrOrEmpty(m.symbol))
  }

  function TradeOf(r: Root, e: Entry, symbol: SymbolBuf, now: u64): Trade {
    Trade(symbol, Spot, r.first, r.second, e.id, Decimal(e.price, r.priceExp),
          Decimal(e.qty, r.qtyExp), e.maker != 0, now)
  }

  function SideOf(r: Root, levels: seq<Level>): Side {
    Side(
      seq(5, i requires 0 <= i < 5 => if i < |levels| then Decimal(levels[i].price, r.priceExp) else 0.0),
      seq(5, i requires 0 <= i < 5 => if i < |levels| then Decimal(levels[i].qty, r.qtyExp) else 0.0),
      Min(|levels|, MAX_LEVELS))
  }

  function Meaning(m: SbeMsg, now: u64): seq<MarketDataMsg>
    requires WellFormed(m)
  {
    var r := m.root;
    match m
    case BestBidAsk(_, bidPrice, bidQty, askPrice, askQty, _) =>
      [BboMsg(Bookticker(SymbolOf(m), Spot, r.first, r.first, r.second,
                         Decimal(bidPrice, r.priceExp), Decimal(bidQty, r.qtyExp),
                         Decimal(askPrice, r.priceExp), Decimal(askQty, r.qtyExp), 0, 0, now))]
    case TradeGroup(_, _, entries, _) =>
      seq(|entries|, i requires 0 <= i < |entries| => TradeMsg(TradeOf(r, entries[i], SymbolOf(m), now)))
    case DepthGroups(_, _, bids, _, asks, _) =>
      var b, a := SideOf(r, bids), SideOf(r, asks);
      [Depth5Msg(Depth5(SymbolOf(m), Spot, r.first, r.first, r.second, b.level, a.level, 0.0,
                        b.prices, b.vols, a.prices, a.vols, NO_ORDER_COUNTS, NO_ORDER_COUNTS, now))]
  }

  // ---------------------------------------------------------------------------
  // Finding fields
  // ---------------------------------------------------------------------------

  /** The bytes `s` lie in the data at `offset`. */
  predicate At(data: seq<byte>, offset: nat, s: seq<byte>) {
    offset + |s| <= |data| && data[offset..offset + |s|] == s
  }

  lemma AtSplit(data: seq<byte>, offset: nat, a: seq<byte>, b: seq<byte>)
    requires At(data, offset, a + b)
    ensures At(data, offset, a) && At(data, offset + |a|, b)
  {
    var n := |a| + |b|;
    SubRange(data, offset, n, 0, |a|);
    SubRange(data, offset, n, |a|, n);
    assert (a + b)[0..|a|] == a && (a + b)[|a|..n] == b;
  }

  lemma AtFour(data: seq<byte>, offset: nat, a: seq<byte>, b: seq<byte>, c: seq<byte>, d: seq<byte>)
    requires At(data, offset, a + (b + (c + d)))
    ensures At(data, offset, a) && At(data, offset + |a|, b)
    ensures At(data, offset + |a| + |b|, c) && At(data, offset + |a| + |b| + |c|, d)
  {
    AtSplit(data, offset, a, b + (c + d));
    AtSplit(data, offset + |a|, b, c + d);
    AtSplit(data, offset + |a| + |b|, c, d);
  }

  lemma AtByte(data: seq<byte>, offset: nat, b: byte)
    requires At(data, offset, [b])
    ensures data[offset] == b
  {
    assert data[offset..offset + 1][0] == b;
  }

  lemma AtU64(data: seq<byte>, offset: nat, v: u64)
    requires At(data, offset, U64Bytes(v))
    ensures U64OfI64(ReadI64Le(data, offset)) == v
  {
    ReadBackI64(data, offset, I64OfU64(v));
  }

  lemma AtString(data: seq<byte>, offset: nat, s: seq<byte>)
    requires |s| < 0x100 && At(data, offset, EncodeString(s))
    ensures ReadVarString8(data, offset) == s
  {
    AtSplit(data, offset, [|s|], s);
    AtByte(data, offset, |s|);
  }

  lemma AtRoot(body: seq<byte>, r: Root)
    requires At(body, 0, EncodeRoot(r))
    ensures FirstField(body) == r.first && SecondField(body) == r.second
    ensures PriceExp(body) == r.priceExp && QtyExp(body) == r.qtyExp
  {
    var exps := [ByteOfI8(r.priceExp), ByteOfI8(r.qtyExp)];
    AtSplit(body, 0, U64Bytes(r.first), U64Bytes(r.second) + exps);
    AtSplit(body, 8, U64Bytes(r.second), exps);
    assert exps == [exps[0]] + [exps[1]];
    AtSplit(body, 16, [exps[0]], [exps[1]]);
    AtU64(body, 0, r.first);
    AtU64(body, 8, r.second);
    AtByte(body, 16, exps[0]);
    AtByte(body, 17, exps[1]);
  }

  predicate AllOfLength(blocks: seq<seq<byte>>, n: nat) {
    forall i | 0 <= i < |blocks| :: |blocks[i]| == n
  }

  lemma {:induction false} FlattenLength(blocks: seq<seq<byte>>, n: nat)
    requires AllOfLength(blocks, n)
    ensures |Flatten(blocks)| == Times(n, |blocks|)
  {
    if blocks != [] {
      FlattenLength(blocks[..|blocks| - 1], n);
    }
  }

  lemma {:induction false} AtBlock(data: seq<byte>, offset: nat, blocks: seq<seq<byte>>, n: nat, i: nat)
    requires AllOfLength(blocks, n) && At(data, offset, Flatten(blocks)) && i < |blocks|
    ensures At(data, EntryAt(offset, n, i), blocks[i])
  {
    var k := |blocks| - 1;
    var init := blocks[..k];
    AtSplit(data, offset, Flatten(init), blocks[k]);
    FlattenLength(init, n);
    if i < k {
      AtBlock(data, offset, init, n, i);
    }
  }

  // ---------------------------------------------------------------------------
  // Best bid and ask
  // ---------------------------------------------------------------------------

  lemma BestBidAskReadsBack(m: SbeMsg, body: seq<byte>, now: u64)
    requires m.BestBidAsk? && WellFormed(m) && At(body, 0, EncodeBody(m))
    ensures BbaReadable(body) && OptionToSeq(ParseBestBidAsk(body, now)) == Meaning(m, now)
  {
    var s := EncodeString(m.symbol);
    var askQ := I64Bytes(m.askQty) + s;
    var askP := I64Bytes(m.askPrice) + askQ;
    AtFour(body, 0, EncodeRoot(m.root), I64Bytes(m.bidPrice), I64Bytes(m.bidQty), askP);
    AtSplit(body, 34, I64Bytes(m.askPrice), askQ);
    AtSplit(body, 42, I64Bytes(m.askQty), s);
    AtRoot(body, m.root);
    ReadBackI64(body, 18, m.bidPrice);
    ReadBackI64(body, 26, m.bidQty);
    ReadBackI64(body, 34, m.askPrice);
    ReadBackI64(body, 42, m.askQty);
    DecimalIsScaled(m.bidPrice, m.root.priceExp);
    DecimalIsScaled(m.bidQty, m.root.qtyExp);
    DecimalIsScaled(m.askPrice, m.root.priceExp);
    DecimalIsScaled(m.askQty, m.root.qtyExp);
    AtString(body, 50, m.symbol);
  }

  // ---------------------------------------------------------------------------
  // Trades
  // ---------------------------------------------------------------------------

  lemma AtEntry(body: seq<byte>, offset: nat, r: Root, e: Entry, symbol: SymbolBuf, now: u64)
    requires |body| >= TRADES_START && At(body, 0, EncodeRoot(r)) && InTable(r.priceExp) && InTable(r.qtyExp)
    requires At(body, offset, EncodeEntry(e))
    ensures offset + 25 <= |body| && ExponentsInTable(body)
            && TradeAt(body, offset, symbol, now) == TradeOf(r, e, symbol, now)
  {
    var tail := [e.maker] + e.padding;
    AtRoot(body, r);
    AtFour(body, offset, U64Bytes(e.id), I64Bytes(e.price), I64Bytes(e.qty), tail);
    AtSplit(body, offset + 24, [e.maker], e.padding);
    AtU64(body, offset, e.id);
    ReadBackI64(body, offset + 8, e.price);
    ReadBackI64(body, offset + 16, e.qty);
    DecimalIsScaled(e.price, r.priceExp);
    DecimalIsScaled(e.qty, r.qtyExp);
    AtByte(body, offset + 24, e.maker);
  }

  lemma TradeGroupLies(m: SbeMsg, body: seq<byte>)
    requires m.TradeGroup? && WellFormed(m) && At(body, 0, EncodeBody(m))
    ensures At(body, 0, EncodeRoot(m.root)) && |body| >= TRADES_START
    ensures TradeBlock(body) == m.block && TradeCount(body) == |m.entries|
    ensures At(body, TRADES_START, Flatten(Entries(m.entries)))
    ensures At(body, TradesEnd(body), EncodeString(m.symbol))
  {
    var s, blocks := EncodeString(m.symbol), Entries(m.entries);
    AtFour(body, 0, EncodeRoot(m.root), U16Bytes(m.block), U32Bytes(|m.entries|), Flatten(blocks) + s);
    AtSplit(body, TRADES_START, Flatten(blocks), s);
    ReadBackU16(body, 18, m.block);
    ReadBackU32(body, 20, |m.entries|);
    FlattenLength(blocks, m.block);
  }

  lemma TradesReadBack(m: SbeMsg, body: seq<byte>, now: u64)
    requires m.TradeGroup? && WellFormed(m) && At(body, 0, EncodeBody(m))
    ensures TradesReadable(body) && TradesIn(body, now) == Meaning(m, now)
  {
    TradeGroupLies(m, body);
    AtString(body, TradesEnd(body), m.symbol);
    forall i: nat | i < |m.entries|
      ensures EntryAt(TRADES_START, m.block, i) + 25 <= |body| && ExponentsInTable(body)
      ensures TradeAt(body, EntryAt(TRADES_START, m.block, i), SymbolOf(m), now)
              == TradeOf(m.root, m.entries[i], SymbolOf(m), now)
    {
      AtBlock(body, TRADES_START, Entries(m.entries), m.block, i);
      AtEntry(body, EntryAt(TRADES_START, m.block, i), m.root, m.entries[i], SymbolOf(m), now);
    }
  }

  // ---------------------------------------------------------------------------
  // Depth
  // ---------------------------------------------------------------------------

  /** What the parser makes of the two fields of a level. */
  lemma LevelIs(body: seq<byte>, offset: nat, price: i64, qty: i64)
    requires |body| >= ROOT_SIZE && offset + 16 <= |body| && ExponentsInTable(body)
    requires ReadI64Le(body, offset) == price && ReadI64Le(body, offset + 8) == qty
    ensures PriceAt(body, offset) == Decimal(price, PriceExp(body))
    ensures VolAt(body, offset) == Decimal(qty, QtyExp(body))
  {
    DecimalIsScaled(price, PriceExp(body));
    DecimalIsScaled(qty, QtyExp(body));
  }

  lemma AtLevel(body: seq<byte>, offset: nat, r: Root, l: Level)
    requires At(body, 0, EncodeRoot(r)) && InTable(r.priceExp) && InTable(r.qtyExp)
    requires At(body, offset, EncodeLevel(l))
    ensures offset + 16 <= |body| && |body| >= ROOT_SIZE && ExponentsInTable(body)
    ensures PriceAt(body, offset) == Decimal(l.price, r.priceExp)
    ensures VolAt(body, offset) == Decimal(l.qty, r.qtyExp)
  {
    AtRoot(body, r);
    AtSplit(body, offset, I64Bytes(l.price), I64Bytes(l.qty) + l.padding);
    AtSplit(body, offset + 8, I64Bytes(l.qty), l.padding);
    ReadBackI64(body, offset, l.price);
    ReadBackI64(body, offset + 8, l.qty);
    LevelIs(body, offset, l.price, l.qty);
  }

  /** All the levels that may be read are there, and the group ends behind its last level. */
  lemma WholeGroup(len: nat, start: nat, block: nat, num: nat)
    requires EntryAt(start, block, num) <= len
    ensures LevelCount(len, start, block, Min(num, MAX_LEVELS)) == Min(num, MAX_LEVELS)
    ensures SideEnd(len, start, block, num) == EntryAt(start, block, num)
  {
    var want := Min(num, MAX_LEVELS);
    var k := LevelCount(len, start, block, want);
    if k < want {
      LevelIsRead(len, start, block, want, k);
      if k + 1 < num { TimesMonotone(block, k + 1, num); }
    }
    GroupEndIs(len, start, block, num);
  }

  lemma LevelsLieThere(body: seq<byte>, start: nat, r: Root, block: u16, levels: seq<Level>, i: nat)
    requires At(body, 0, EncodeRoot(r)) && InTable(r.priceExp) && InTable(r.qtyExp)
    requires LevelsFill(block, levels) && At(body, start, Flatten(Levels(levels))) && i < |levels|
    ensures EntryAt(start, block, i) + 16 <= |body| && |body| >= ROOT_SIZE && ExponentsInTable(body)
    ensures PriceAt(body, EntryAt(start, block, i)) == Decimal(levels[i].price, r.priceExp)
    ensures VolAt(body, EntryAt(start, block, i)) == Decimal(levels[i].qty, r.qtyExp)
  {
    AtBlock(body, start, Levels(levels), block, i);
    AtLevel(body, EntryAt(start, block, i), r, levels[i]);
  }

  lemma FirstLevelsReadBack(body: seq<byte>, start: nat, r: Root, block: u16, levels: seq<Level>)
    requires At(body, 0, EncodeRoot(r)) && InTable(r.priceExp) && InTable(r.qtyExp)
    requires LevelsFill(block, levels) && At(body, start, Flatten(Levels(levels)))
    ensures LevelsLie(body, start, block, Min(|levels|, MAX_LEVELS))
    ensures FirstLevels(body, start, block, Min(|levels|, MAX_LEVELS)) == SideOf(r, levels)
  {
    forall i: nat | i < Min(|levels|, MAX_LEVELS)
      ensures EntryAt(start, block, i) + 16 <= |body| && |body| >= ROOT_SIZE && ExponentsInTable(body)
      ensures PriceAt(body, EntryAt(start, block, i)) == Decimal(levels[i].price, r.priceExp)
      ensures VolAt(body, EntryAt(start, block, i)) == Decimal(levels[i].qty, r.qtyExp)
    {
      LevelsLieThere(body, start, r, block, levels, i);
    }
  }

  lemma LevelsReadBack(body: seq<byte>, start: nat, r: Root, block: u16, levels: seq<Level>)
    requires At(body, 0, EncodeRoot(r)) && InTable(r.priceExp) && InTable(r.qtyExp)
    requires LevelsFill(block, levels) && At(body, start, Flatten(Levels(levels)))
    ensures LevelsReadable(body, start, block, Min(|levels|, MAX_LEVELS))
            && SideIn(body, start, block, |levels|) == SideOf(r, levels)
    ensures SideEnd(|body|, start, block, |levels|) == start + |Flatten(Levels(levels))|
  {
    FlattenLength(Levels(levels), block);
    WholeGroup(|body|, start, block, |levels|);
    FirstLevelsReadBack(body, start, r, block, levels);
  }

  lemma AtLevels(body: seq<byte>, offset: nat, block: u16, levels: seq<Level>)
    requires |levels| < 0x1_0000 && At(body, offset, EncodeLevels(block, levels))
    ensures ReadU16Le(body, offset) == block && ReadU16Le(body, offset + 2) == |levels|
    ensures At(body, offset + DEPTH_GROUP_HEADER_SIZE, Flatten(Levels(levels)))
  {
    var flat := Flatten(Levels(levels));
    AtSplit(body, offset, U16Bytes(block), U16Bytes(|levels|) + flat);
    AtSplit(body, offset + 2, U16Bytes(|levels|), flat);
    ReadBackU16(body, offset, block);
    ReadBackU16(body, offset + 2, |levels|);
  }

  lemma DepthGroupsLie(m: SbeMsg, body: seq<byte>)
    requires m.DepthGroups? && WellFormed(m) && At(body, 0, EncodeBody(m))
    ensures At(body, 0, EncodeRoot(m.root)) && At(body, ROOT_SIZE, EncodeLevels(m.bidBlock, m.bids))
    ensures var asksAt := ROOT_SIZE + |EncodeLevels(m.bidBlock, m.bids)|;
            && At(body, asksAt, EncodeLevels(m.askBlock, m.asks))
            && At(body, asksAt + |EncodeLevels(m.askBlock, m.asks)|, EncodeString(m.symbol))
  {
    var s := EncodeString(m.symbol);
    var bids, asks := EncodeLevels(m.bidBlock, m.bids), EncodeLevels(m.askBlock, m.asks);
    AtFour(body, 0, EncodeRoot(m.root), bids, asks, s);
  }

  /** One group as the parser meets it: its header, its levels, and where it ends. */
  lemma GroupReadsBack(body: seq<byte>, offset: nat, r: Root, block: u16, levels: seq<Level>)
    requires At(body, 0, EncodeRoot(r)) && InTable(r.priceExp) && InTable(r.qtyExp)
    requires LevelsFill(block, levels) && At(body, offset, EncodeLevels(block, levels))
    ensures ReadU16Le(body, offset) == block && ReadU16Le(body, offset + 2) == |levels|
    ensures var start := offset + DEPTH_GROUP_HEADER_SIZE;
            && LevelsReadable(body, start, block, Min(|levels|, MAX_LEVELS))
            && SideIn(body, start, block, |levels|) == SideOf(r, levels)
            && SideEnd(|body|, start, block, |levels|) == offset + |EncodeLevels(block, levels)|
  {
    AtLevels(body, offset, block, levels);
    LevelsReadBack(body, offset + DEPTH_GROUP_HEADER_SIZE, r, block, levels);
  }

  /** A body whose two groups are as given is read as these two groups. */
  lemma DepthOfGroups(body: seq<byte>, now: u64, asksAt: nat, block: u16, num: u16, bids: Side, asks: Side, end: nat)
    requires |body| >= BIDS_START && AsksAt(body) == asksAt && asksAt + DEPTH_GROUP_HEADER_SIZE <= |body|
    requires LevelsReadable(body, BIDS_START, ReadU16Le(body, ROOT_SIZE),
                            Min(ReadU16Le(body, ROOT_SIZE + 2), MAX_LEVELS))
    requires bids == SideIn(body, BIDS_START, ReadU16Le(body, ROOT_SIZE), ReadU16Le(body, ROOT_SIZE + 2))
    requires ReadU16Le(body, asksAt) == block && ReadU16Le(body, asksAt + 2) == num
    requires LevelsReadable(body, asksAt + DEPTH_GROUP_HEADER_SIZE, block, Min(num, MAX_LEVELS))
    requires asks == SideIn(body, asksAt + DEPTH_GROUP_HEADER_SIZE, block, num)
    requires end == SideEnd(|body|, asksAt + DEPTH_GROUP_HEADER_SIZE, block, num)
    ensures DepthReadable(body) && DepthIn(body, now) == Some(DepthOf(body, SymbolAt(body, end), bids, asks, now))
  {
  }

  lemma DepthReadsBack(m: SbeMsg, body: seq<byte>, now: u64)
    requires m.DepthGroups? && WellFormed(m) && At(body, 0, EncodeBody(m))
    ensures DepthReadable(body) && OptionToSeq(DepthIn(body, now)) == Meaning(m, now)
  {
    DepthGroupsLie(m, body);
    var asksAt := ROOT_SIZE + |EncodeLevels(m.bidBlock, m.bids)|;
    var end := asksAt + |EncodeLevels(m.askBlock, m.asks)|;
    AtRoot(body, m.root);
    GroupReadsBack(body, ROOT_SIZE, m.root, m.bidBlock, m.bids);
    GroupReadsBack(body, asksAt, m.root, m.askBlock, m.asks);
    AtString(body, end, m.symbol);
    DepthOfGroups(body, now, asksAt, m.askBlock, |m.asks|, SideOf(m.root, m.bids), SideOf(m.root, m.asks), end);
  }

  // ---------------------------------------------------------------------------
  // Whole frames
  // ---------------------------------------------------------------------------

  lemma AtHeader(data: seq<byte>, m: SbeMsg, rootLength: u16, schema: u16, version: u16)
    requires WellFormed(m) && At(data, 0, Encode(m, rootLength, schema, version))
    ensures |data| >= SBE_HEADER_SIZE && ReadU16Le(data, 2) == Template(m)
            && At(data[SBE_HEADER_SIZE..], 0, EncodeBody(m))
  {
    var body := EncodeBody(m);
    AtFour(data, 0, U16Bytes(rootLength), U16Bytes(Template(m)), U16Bytes(schema), U16Bytes(version) + body);
    AtSplit(data, 6, U16Bytes(version), body);
    ReadBackU16(data, 2, Template(m));
  }

  /** Decoding an encoded message gives what it says, for every kind of message, any number of entries
      or levels, any padding of their blocks, any symbol, and whatever bytes follow: every trade in
      order, or the first five levels of each side, with the level counts and the symbol. */
  lemma DecodeEncode(m: SbeMsg, rootLength: u16, schema: u16, version: u16, rest: seq<byte>, now: u64)
    requires WellFormed(m)
    ensures var data := Encode(m, rootLength, schema, version) + rest;
            MessageReadable(data) && MessagesIn(data, now) == Meaning(m, now)
  {
    var frame := Encode(m, rootLength, schema, version);
    var data := frame + rest;
    assert data[0..|frame|] == frame;
    AtHeader(data, m, rootLength, schema, version);
    var body := data[SBE_HEADER_SIZE..];
    match m {
      case BestBidAsk(_, _, _, _, _, _) => BestBidAskReadsBack(m, body, now);
      case TradeGroup(_, _, _, _) => TradesReadBack(m, body, now);
      case DepthGroups(_, _, _, _, _, _) => DepthReadsBack(m, body, now);
    }
  }

  /** The symbol a reader of the records finds is the one encoded, when it fits the buffer. */
  lemma SymbolSurvives(m: SbeMsg, name: Str)
    requires WellFormed(m) && m.symbol == name
    ensures SymbolFromBytes(SymbolOf(m)) == name <==> |name| <= SYMBOL_LEN && 0 !in name
  {
    SymbolRoundTrip(name);
  }
}
