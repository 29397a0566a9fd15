/** The parser of Simple Binary Encoding frames: a fixed header, then a best-bid-ask, trades or depth
    body with repeating groups and a length-prefixed symbol at the end. */
module SbeParser {
  import opened Bytes
  import opened Multiples
  import opened Symbols
  import opened MarketData

  const SBE_HEADER_SIZE: nat := 8
  const TEMPLATE_TRADES: u16 := 10000
  const TEMPLATE_BEST_BID_ASK: u16 := 10001
  const TEMPLATE_DEPTH: u16 := 10002

  // ---------------------------------------------------------------------------
  // Decimals
  // ---------------------------------------------------------------------------

  const POW10: seq<real> := [
    0.000000000000000001, 0.00000000000000001, 0.0000000000000001, 0.000000000000001, 0.00000000000001,
    0.0000000000001, 0.000000000001, 0.00000000001, 0.0000000001, 0.000000001, 0.00000001, 0.0000001, 0.000001,
    0.00001, 0.0001, 0.001, 0.01, 0.1, 1.0, 10.0, 100.0, 1000.0, 10000.0, 100000.0, 1000000.0, 10000000.0,
    100000000.0, 1000000000.0, 10000000000.0, 100000000000.0, 1000000000000.0, 10000000000000.0,
    100000000000000.0, 1000000000000000.0, 10000000000000000.0, 100000000000000000.0, 1000000000000000000.0
  ]

  /** The exponents the table has an entry for. */
  predicate InTable(exponent: i8) {
    -18 <= exponent <= 18
  }

  function DecodeDecimal128(mantissa: i64, exponent: i8): real
    requires InTable(exponent)
  {
    mantissa as real * POW10[exponent + 18]
  }

  function PowerOfTen(e: int): real
    decreases if e < 0 then -e else e
  {
    if e == 0 then 1.0 else if e > 0 then PowerOfTen(e - 1) * 10.0 else PowerOfTen(e + 1) / 10.0
  }

  lemma {:induction false} TableIsPowers(e: i8)
    requires InTable(e)
    ensures POW10[e + 18] == PowerOfTen(e)
    decreases if e < 0 then -e else e
  {
    if e > 0 {
      TableIsPowers(e - 1);
    } else if e < 0 {
      TableIsPowers(e + 1);
    }
  }

  /** The number that a mantissa and an exponent denote. */
  function Decimal(mantissa: i64, exponent: int): real {
    mantissa as real * PowerOfTen(exponent)
  }

  lemma LookedUp(mantissa: i64, exponent: i8, power: real)
    requires InTable(exponent) && POW10[exponent + 18] == power
    ensures DecodeDecimal128(mantissa, exponent) == mantissa as real * power
  {
  }

  lemma Denoted(mantissa: i64, exponent: int, power: real)
    requires power == PowerOfTen(exponent)
    ensures Decimal(mantissa, exponent) == mantissa as real * power
  {
  }

  /** What is computed from the table is mantissa times ten to the exponent, for every mantissa. */
  lemma DecimalIsScaled(mantissa: i64, exponent: i8)
    requires InTable(exponent)
    ensures DecodeDecimal128(mantissa, exponent) == Decimal(mantissa, exponent)
  {
    var power := PowerOfTen(exponent);
    TableIsPowers(exponent);
    LookedUp(mantissa, exponent, power);
    Denoted(mantissa, exponent, power);
  }

  // ---------------------------------------------------------------------------
  // Fields
  // ---------------------------------------------------------------------------

  /** A one-byte length and so many bytes, cut short when the data ends first. */
  function ReadVarString8(data: seq<byte>, offset: nat): seq<byte> {
    if offset >= |data| then []
    else
      var start := offset + 1;
      data[start..Min(start + data[offset], |data|)]
  }

  function SymbolAt(data: seq<byte>, offset: nat): SymbolBuf {
    SymbolToBytes(StrOrEmpty(ReadVarString8(data, offset)))
  }

  /** The 18 bytes every body starts with: two 64-bit fields and the two shared exponents. */
  const ROOT_SIZE: nat := 18

  function FirstField(body: seq<byte>): u64
    requires |body| >= ROOT_SIZE
  {
    U64OfI64(ReadI64Le(body, 0))
  }

  function SecondField(body: seq<byte>): u64
    requires |body| >= ROOT_SIZE
  {
    U64OfI64(ReadI64Le(body, 8))
  }

  function PriceExp(body: seq<byte>): i8
    requires |body| >= ROOT_SIZE
  {
    I8OfByte(body[16])
  }

  function QtyExp(body: seq<byte>): i8
    requires |body| >= ROOT_SIZE
  {
    I8OfByte(body[17])
  }

  predicate ExponentsInTable(body: seq<byte>)
    requires |body| >= ROOT_SIZE
  {
    InTable(PriceExp(body)) && InTable(QtyExp(body))
  }

  // ---------------------------------------------------------------------------
  // Best bid and ask
  // ---------------------------------------------------------------------------

  const BBA_MIN_BODY: nat := 51

  /** What the source demands of a body, and what it otherwise panics on: here, an exponent outside
      the table. */
  predicate BbaReadable(body: seq<byte>) {
    |body| >= BBA_MIN_BODY ==> ExponentsInTable(body)
  }

  function ParseBestBidAsk(body: seq<byte>, now: u64): Option<MarketDataMsg>
    requires BbaReadable(body)
  {
    if |body| < BBA_MIN_BODY then None
    else
      var eventTime, priceExp, qtyExp := FirstField(body), PriceExp(body), QtyExp(body);
      Some(BboMsg(Bookticker(
        SymbolAt(body, 50), Spot, eventTime, eventTime, SecondField(body),
        DecodeDecimal128(ReadI64Le(body, 18), priceExp), DecodeDecimal128(ReadI64Le(body, 26), qtyExp),
        DecodeDecimal128(ReadI64Le(body, 34), priceExp), DecodeDecimal128(ReadI64Le(body, 42), qtyExp),
        0, 0, now)))
  }

  // ---------------------------------------------------------------------------
  // Trades
  // ---------------------------------------------------------------------------

  const TRADES_GROUP_HEADER_SIZE: nat := 6
  const TRADES_START: nat := ROOT_SIZE + TRADES_GROUP_HEADER_SIZE

  function TradeBlock(body: seq<byte>): u16
    requires |body| >= TRADES_START
  {
    ReadU16Le(body, ROOT_SIZE)
  }

  function TradeCount(body: seq<byte>): u32
    requires |body| >= TRADES_START
  {
    ReadU32Le(body, ROOT_SIZE + 2)
  }

  function EntryAt(start: nat, block: nat, i: nat): nat {
    start + Times(block, i)
  }

  function TradesEnd(body: seq<byte>): nat
    requires |body| >= TRADES_START
  {
    EntryAt(TRADES_START, TradeBlock(body), TradeCount(body))
  }

  /** When the group fits the body, each of its entries is read: the exponents must be in the table
      and the three words of every entry must lie in the body. The parser panics otherwise. */
  predicate TradesReadable(body: seq<byte>) {
    |body| >= TRADES_START && TradesEnd(body) <= |body| && TradeCount(body) > 0 ==>
      && ExponentsInTable(body)
      && forall i: nat | i < TradeCount(body) :: EntryAt(TRADES_START, TradeBlock(body), i) + 24 <= |body|
  }

  function TradeAt(body: seq<byte>, offset: nat, symbol: SymbolBuf, now: u64): Trade
    requires |body| >= TRADES_START && offset + 24 <= |body| && ExponentsInTable(body)
  {
    Trade(symbol, Spot, FirstField(body), SecondField(body), U64OfI64(ReadI64Le(body, offset)),
          DecodeDecimal128(ReadI64Le(body, offset + 8), PriceExp(body)),
          DecodeDecimal128(ReadI64Le(body, offset + 16), QtyExp(body)),
          offset + 24 < |body| && body[offset + 24] != 0, now)
  }

  /** The trades of a body: none when it is too short for its group, else one per entry, in order. */
  function TradesIn(body: seq<byte>, now: u64): seq<MarketDataMsg>
    requires TradesReadable(body)
  {
    if |body| < TRADES_START || TradesEnd(body) > |body| then []
    else
      var symbol, block := SymbolAt(body, TradesEnd(body)), TradeBlock(body);
      seq(TradeCount(body), i requires 0 <= i < TradeCount(body) =>
        TradeMsg(TradeAt(body, EntryAt(TRADES_START, block, i), symbol, now)))
  }

  lemma EntryInBody(body: seq<byte>, i: nat)
    requires |body| >= TRADES_START && TradesEnd(body) <= |body| && i < TradeCount(body)
    ensures EntryAt(TRADES_START, TradeBlock(body), i) + TradeBlock(body) <= |body|
  {
    TimesMonotone(TradeBlock(body), i, TradeCount(body));
  }

  /** The group fits the body. */
  predicate GroupFits(body: seq<byte>) {
    |body| >= TRADES_START && TradesEnd(body) <= |body|
  }

  lemma EntryIsTrade(body: seq<byte>, now: u64, i: nat)
    requires TradesReadable(body) && GroupFits(body) && i < TradeCount(body)
    ensures var offset := EntryAt(TRADES_START, TradeBlock(body), i);
            && offset + 24 <= |body| && offset + TradeBlock(body) <= |body| && ExponentsInTable(body)
            && TradesIn(body, now)[i] == TradeMsg(TradeAt(body, offset, SymbolAt(body, TradesEnd(body)), now))
  {
    EntryInBody(body, i);
  }

  /** The loop over the group's entries. Its bounds check never stops it. */
  method ReadTrades(body: seq<byte>, now: u64, blockLength: u16, numTrades: u32, symbol: SymbolBuf)
    returns (results: seq<MarketDataMsg>)
    requires TradesReadable(body) && GroupFits(body)
    requires blockLength == TradeBlock(body) && numTrades == TradeCount(body)
             && symbol == SymbolAt(body, TradesEnd(body))
    ensures results == TradesIn(body, now)
  {
    results := [];
    var offset := TRADES_START;
    ghost var all := TradesIn(body, now);
    for i := 0 to numTrades
      invariant offset == EntryAt(TRADES_START, blockLength, i)
      invariant results == all[..i]
    {
      EntryIsTrade(body, now, i);
      if offset + blockLength > |body| {
        assert false;
        break;
      }
      results := results + [TradeMsg(TradeAt(body, offset, symbol, now))];
      offset := offset + blockLength;
    }
  }

  method ParseTrades(body: seq<byte>, now: u64) returns (results: seq<MarketDataMsg>)
    requires TradesReadable(body)
    ensures results == TradesIn(body, now)
  {
    results := [];
    if |body| < TRADES_START {
      return;
    }
    var blockLength, numTrades := TradeBlock(body), TradeCount(body);
    var tradesEnd := TRADES_START + blockLength * numTrades;
    assert tradesEnd == TradesEnd(body) by { TimesIsProduct(blockLength, numTrades); }
    if tradesEnd > |body| {
      return;
    }
    results := ReadTrades(body, now, blockLength, numTrades, SymbolAt(body, tradesEnd));
  }

  /** Entries of at least 24 bytes and exponents in the table are enough. */
  lemma TradesOfBlockAreReadable(body: seq<byte>)
    requires |body| >= TRADES_START ==> TradeBlock(body) >= 24 && ExponentsInTable(body)
    ensures TradesReadable(body)
  {
    if |body| >= TRADES_START && TradesEnd(body) <= |body| {
      forall i: nat | i < TradeCount(body)
        ensures EntryAt(TRADES_START, TradeBlock(body), i) + 24 <= |body|
      {
        TimesMonotone(TradeBlock(body), i, TradeCount(body));
      }
    }
  }

  // ---------------------------------------------------------------------------
  // Depth
  // ---------------------------------------------------------------------------

  const DEPTH_GROUP_HEADER_SIZE: nat := 4
  const MAX_LEVELS: nat := 5

  /** How many of `want` levels lie whole in the data. */
  function LevelCount(len: nat, start: nat, block: nat, want: nat): (k: nat)
    ensures k <= want
    decreases want
  {
    if want == 0 || start + block > len then 0 else 1 + LevelCount(len, start + block, block, want - 1)
  }

  /** The levels read are exactly those that end within the data. */
  lemma {:induction false} LevelIsRead(len: nat, start: nat, block: nat, want: nat, i: nat)
    requires i < want
    ensures i < LevelCount(len, start, block, want) <==> EntryAt(start, block, i + 1) <= len
    decreases i
  {
    TimesFront(block, i);
    if i > 0 {
      if start + block <= len {
        LevelIsRead(len, start + block, block, want - 1, i - 1);
      }
    }
  }

  /** One side of a depth record. */
  datatype Side = Side(prices: Five, vols: Five, level: nat)

  const NO_SIDE: Side := Side(ZERO_FIVE, ZERO_FIVE, 0)

  /** The first `k` levels of a group can be read. */
  predicate LevelsLie(body: seq<byte>, start: nat, block: nat, k: nat) {
    k > 0 ==>
      && |body| >= ROOT_SIZE && ExponentsInTable(body)
      && forall i: nat | i < k :: EntryAt(start, block, i) + 16 <= |body|
  }

  predicate LevelsReadable(body: seq<byte>, start: nat, block: nat, want: nat) {
    LevelsLie(body, start, block, LevelCount(|body|, start, block, want))
  }

  function PriceAt(body: seq<byte>, offset: nat): real
    requires |body| >= ROOT_SIZE && offset + 16 <= |body| && ExponentsInTable(body)
  {
    DecodeDecimal128(ReadI64Le(body, offset), PriceExp(body))
  }

  function VolAt(body: seq<byte>, offset: nat): real
    requires |body| >= ROOT_SIZE && offset + 16 <= |body| && ExponentsInTable(body)
  {
    DecodeDecimal128(ReadI64Le(body, offset + 8), QtyExp(body))
  }

  /** The first `k` levels of a group; the other places are zero. */
  function FirstLevels(body: seq<byte>, start: nat, block: nat, k: nat): Side
    requires LevelsLie(body, start, block, k)
  {
    Side(
      seq(5, i requires 0 <= i < 5 => if i < k then PriceAt(body, EntryAt(start, block, i)) else 0.0),
      seq(5, i requires 0 <= i < 5 => if i < k then VolAt(body, EntryAt(start, block, i)) else 0.0),
      k)
  }

  lemma FirstLevelsNext(body: seq<byte>, start: nat, block: nat, k: nat)
    requires k < MAX_LEVELS && LevelsLie(body, start, block, k + 1)
    ensures var side, offset := FirstLevels(body, start, block, k), EntryAt(start, block, k);
            FirstLevels(body, start, block, k + 1)
            == Side(side.prices[k := PriceAt(body, offset)], side.vols[k := VolAt(body, offset)], k + 1)
  {
  }

  function SideIn(body: seq<byte>, start: nat, block: nat, num: nat): Side
    requires LevelsReadable(body, start, block, Min(num, MAX_LEVELS))
  {
    FirstLevels(body, start, block, LevelCount(|body|, start, block, Min(num, MAX_LEVELS)))
  }

  /** Where the parser is after a group: past the levels it read and the levels beyond five. */
  function SideEnd(len: nat, start: nat, block: nat, num: nat): nat {
    var want := Min(num, MAX_LEVELS);
    EntryAt(start, block, LevelCount(len, start, block, want)) + Times(block, num - want)
  }

  method ReadLevels(body: seq<byte>, start: nat, block: u16, num: u16) returns (side: Side, offset: nat)
    requires LevelsReadable(body, start, block, Min(num, MAX_LEVELS))
    ensures side == SideIn(body, start, block, num) && offset == EntryAt(start, block, side.level)
  {
    var levels := Min(num, MAX_LEVELS);
    side, offset := NO_SIDE, start;
    ghost var count := LevelCount(|body|, start, block, levels);
    for i := 0 to levels
      invariant i <= count && offset == EntryAt(start, block, i)
      invariant side == FirstLevels(body, start, block, i)
    {
      LevelIsRead(|body|, start, block, levels, i);
      if offset + block > |body| {
        break;
      }
      FirstLevelsNext(body, start, block, i);
      side := Side(side.prices[i := PriceAt(body, offset)], side.vols[i := VolAt(body, offset)], i + 1);
      offset := offset + block;
    }
  }

  /** The loops of one group, from its first level to the position after it. */
  method ReadGroup(body: seq<byte>, start: nat, block: u16, num: u16) returns (side: Side, offset: nat)
    requires LevelsReadable(body, start, block, Min(num, MAX_LEVELS))
    ensures side == SideIn(body, start, block, num) && offset == SideEnd(|body|, start, block, num)
  {
    side, offset := ReadLevels(body, start, block, num);
    var levels := Min(num, MAX_LEVELS);
    for j := levels to num
      invariant offset == EntryAt(start, block, side.level) + Times(block, j - levels)
    {
      offset := offset + block;
    }
  }

  const BIDS_START: nat := ROOT_SIZE + DEPTH_GROUP_HEADER_SIZE

  /** Where the asks group header is looked for. */
  function AsksAt(body: seq<byte>): nat
    requires |body| >= BIDS_START
  {
    SideEnd(|body|, BIDS_START, ReadU16Le(body, ROOT_SIZE), ReadU16Le(body, ROOT_SIZE + 2))
  }

  /** All the levels that may be read are there if and only if the last of them ends within the data. */
  lemma AllLevelsRead(len: nat, start: nat, block: nat, want: nat)
    requires start <= len
    ensures LevelCount(len, start, block, want) == want <==> EntryAt(start, block, want) <= len
  {
    if want > 0 {
      LevelIsRead(len, start, block, want, want - 1);
    }
  }

  lemma GroupEndIs(len: nat, start: nat, block: nat, num: nat)
    requires start <= len
    ensures if block == 0 || EntryAt(start, block, Min(num, MAX_LEVELS)) <= len
            then SideEnd(len, start, block, num) == EntryAt(start, block, num)
            else SideEnd(len, start, block, num) < EntryAt(start, block, num)
  {
    var want := Min(num, MAX_LEVELS);
    var k := LevelCount(len, start, block, want);
    AllLevelsRead(len, start, block, want);
    TimesSum(block, want, num - want);
    if block == 0 {
      TimesOfZero(want);
      TimesOfZero(k);
    } else if k < want {
      TimesMonotone(block, k, want);
    }
  }

  /** A truncated bids group leaves the parser inside it: the asks header is looked for behind the whole
      group exactly when the first five levels (or all, of fewer) end within the body or have no length,
      and before its end otherwise. */
  lemma AsksFoundBehindBids(body: seq<byte>)
    requires |body| >= BIDS_START
    ensures var block, num := ReadU16Le(body, ROOT_SIZE), ReadU16Le(body, ROOT_SIZE + 2);
            if block == 0 || BIDS_START + block * Min(num, MAX_LEVELS) <= |body|
            then AsksAt(body) == BIDS_START + block * num
            else AsksAt(body) < BIDS_START + block * num
  {
    var block, num := ReadU16Le(body, ROOT_SIZE), ReadU16Le(body, ROOT_SIZE + 2);
    GroupEndIs(|body|, BIDS_START, block, num);
    TimesIsProduct(block, num);
    TimesIsProduct(block, Min(num, MAX_LEVELS));
  }

  /** What is read of a group of this many levels lies within the data, or the levels have no length. */
  predicate GroupWhole(len: nat, start: nat, block: nat, num: nat) {
    block == 0 || start + block * Min(num, MAX_LEVELS) <= len
  }

  lemma WholeGroupEnd(len: nat, start: nat, block: nat, num: nat)
    requires start <= len
    ensures SideEnd(len, start, block, num) <= start + block * num
    ensures SideEnd(len, start, block, num) == start + block * num <==> GroupWhole(len, start, block, num)
  {
    GroupEndIs(len, start, block, num);
    TimesIsProduct(block, num);
    TimesIsProduct(block, Min(num, MAX_LEVELS));
  }

  /** The symbol is looked for behind both groups exactly when of each group the first five levels (or all,
      of fewer) end within the body or have no length, and before their end otherwise. */
  lemma SymbolFoundBehindGroups(body: seq<byte>)
    requires |body| >= BIDS_START && AsksAt(body) + DEPTH_GROUP_HEADER_SIZE <= |body|
    ensures var at := AsksAt(body);
            var bidBlock, numBids := ReadU16Le(body, ROOT_SIZE), ReadU16Le(body, ROOT_SIZE + 2);
            var askBlock, numAsks := ReadU16Le(body, at), ReadU16Le(body, at + 2);
            var behind := BIDS_START + bidBlock * numBids + DEPTH_GROUP_HEADER_SIZE + askBlock * numAsks;
            && GroupEnd(body, at) <= behind
            && (GroupEnd(body, at) == behind <==>
                GroupWhole(|body|, BIDS_START, bidBlock, numBids)
                && GroupWhole(|body|, at + DEPTH_GROUP_HEADER_SIZE, askBlock, numAsks))
  {
    var at := AsksAt(body);
    WholeGroupEnd(|body|, BIDS_START, ReadU16Le(body, ROOT_SIZE), ReadU16Le(body, ROOT_SIZE + 2));
    WholeGroupEnd(|body|, at + DEPTH_GROUP_HEADER_SIZE, ReadU16Le(body, at), ReadU16Le(body, at + 2));
  }

  predicate BidsReadable(body: seq<byte>)
    requires |body| >= BIDS_START
  {
    LevelsReadable(body, BIDS_START, ReadU16Le(body, ROOT_SIZE), Min(ReadU16Le(body, ROOT_SIZE + 2), MAX_LEVELS))
  }

  function BidsIn(body: seq<byte>): Side
    requires |body| >= BIDS_START && BidsReadable(body)
  {
    SideIn(body, BIDS_START, ReadU16Le(body, ROOT_SIZE), ReadU16Le(body, ROOT_SIZE + 2))
  }

  /** A group whose header is at `at`. */
  predicate GroupReadable(body: seq<byte>, at: nat)
    requires at + DEPTH_GROUP_HEADER_SIZE <= |body|
  {
    LevelsReadable(body, at + DEPTH_GROUP_HEADER_SIZE, ReadU16Le(body, at), Min(ReadU16Le(body, at + 2), MAX_LEVELS))
  }

  function GroupIn(body: seq<byte>, at: nat): Side
    requires at + DEPTH_GROUP_HEADER_SIZE <= |body| && GroupReadable(body, at)
  {
    SideIn(body, at + DEPTH_GROUP_HEADER_SIZE, ReadU16Le(body, at), ReadU16Le(body, at + 2))
  }

  function GroupEnd(body: seq<byte>, at: nat): nat
    requires at + DEPTH_GROUP_HEADER_SIZE <= |body|
  {
    SideEnd(|body|, at + DEPTH_GROUP_HEADER_SIZE, ReadU16Le(body, at), ReadU16Le(body, at + 2))
  }

  predicate DepthReadable(body: seq<byte>) {
    |body| >= BIDS_START ==>
      BidsReadable(body) && (AsksAt(body) + DEPTH_GROUP_HEADER_SIZE <= |body| ==> GroupReadable(body, AsksAt(body)))
  }

  function DepthOf(body: seq<byte>, symbol: SymbolBuf, bids: Side, asks: Side, now: u64): MarketDataMsg
    requires |body| >= BIDS_START
  {
    Depth5Msg(Depth5(symbol, Spot, FirstField(body), FirstField(body), SecondField(body), bids.level, asks.level, 0.0,
                     bids.prices, bids.vols, asks.prices, asks.vols, NO_ORDER_COUNTS, NO_ORDER_COUNTS, now))
  }

  /** The record of a body. A body that ends before the asks header gives the bids alone and no symbol. */
  function DepthIn(body: seq<byte>, now: u64): Option<MarketDataMsg>
    requires DepthReadable(body)
  {
    if |body| < BIDS_START then None
    else if AsksAt(body) + DEPTH_GROUP_HEADER_SIZE > |body| then
      Some(DepthOf(body, Zeros(SYMBOL_LEN), BidsIn(body), NO_SIDE, now))
    else
      Some(DepthOf(body, SymbolAt(body, GroupEnd(body, AsksAt(body))), BidsIn(body), GroupIn(body, AsksAt(body)), now))
  }

  method ParseDepth(body: seq<byte>, now: u64) returns (result: Option<MarketDataMsg>)
    requires DepthReadable(body)
    ensures result == DepthIn(body, now)
  {
    if |body| < BIDS_START {
      return None;
    }
    var bids, at := ReadGroup(body, BIDS_START, ReadU16Le(body, ROOT_SIZE), ReadU16Le(body, ROOT_SIZE + 2));
    if at + DEPTH_GROUP_HEADER_SIZE > |body| {
      return Some(DepthOf(body, Zeros(SYMBOL_LEN), bids, NO_SIDE, now));
    }
    var asks, end := ReadGroup(body, at + DEPTH_GROUP_HEADER_SIZE, ReadU16Le(body, at), ReadU16Le(body, at + 2));
    result := Some(DepthOf(body, SymbolAt(body, end), bids, asks, now));
  }

  /** Levels of at least 16 bytes and exponents in the table are enough, whatever the body's length. */
  lemma LevelsOfBlockAreReadable(body: seq<byte>, start: nat, block: nat, want: nat)
    requires block >= 16 && |body| >= ROOT_SIZE && ExponentsInTable(body)
    ensures LevelsReadable(body, start, block, want)
  {
    forall i: nat | i < LevelCount(|body|, start, block, want)
      ensures EntryAt(start, block, i) + 16 <= |body|
    {
      LevelIsRead(|body|, start, block, want, i);
    }
  }

  /** If this level ends within the data, so do the sixteen bytes of its price and volume. */
  predicate LevelFits(len: nat, start: nat, block: nat, i: nat) {
    EntryAt(start, block, i + 1) <= len ==> EntryAt(start, block, i) + 16 <= len
  }

  /** Every level that is read holds its price and volume. */
  predicate LevelsFit(len: nat, start: nat, block: nat, num: nat) {
    forall i: nat | i < Min(num, MAX_LEVELS) :: LevelFits(len, start, block, i)
  }

  predicate LevelHeld(len: nat, start: nat, block: nat, i: nat) {
    EntryAt(start, block, i) + 16 <= len
  }

  lemma LevelsFitIs(len: nat, start: nat, block: nat, num: nat)
    ensures LevelsFit(len, start, block, num) <==>
            forall i: nat | i < LevelCount(len, start, block, Min(num, MAX_LEVELS)) :: LevelHeld(len, start, block, i)
  {
    var want := Min(num, MAX_LEVELS);
    forall i: nat | i < want
      ensures LevelFits(len, start, block, i) <==>
              (i < LevelCount(len, start, block, want) ==> LevelHeld(len, start, block, i))
    {
      LevelIsRead(len, start, block, want, i);
    }
    assert LevelsFit(len, start, block, num) ==>
      forall i: nat | i < LevelCount(len, start, block, want) :: LevelFits(len, start, block, i);
  }

  lemma LevelsLieIs(body: seq<byte>, start: nat, block: nat, k: nat)
    requires |body| >= ROOT_SIZE
    ensures LevelsLie(body, start, block, k) <==>
            (k > 0 ==> ExponentsInTable(body)) && forall i: nat | i < k :: LevelHeld(|body|, start, block, i)
  {
    if forall i: nat | i < k :: LevelHeld(|body|, start, block, i) {
      forall i: nat | i < k
        ensures EntryAt(start, block, i) + 16 <= |body|
      {
        assert LevelHeld(|body|, start, block, i);
      }
    }
  }

  /** A group can be read exactly when its levels fit and, if there is one that is read, both exponents have
      an entry in the table. */
  lemma GroupReadableExactly(body: seq<byte>, start: nat, block: nat, num: nat)
    requires |body| >= ROOT_SIZE
    ensures LevelsReadable(body, start, block, Min(num, MAX_LEVELS)) <==>
            LevelsFit(|body|, start, block, num)
            && (num > 0 && start + block <= |body| ==> ExponentsInTable(body))
  {
    LevelsFitIs(|body|, start, block, num);
    LevelsLieIs(body, start, block, LevelCount(|body|, start, block, Min(num, MAX_LEVELS)));
  }

  /** The bodies on which the depth parser does not panic, by what their two group headers say. The second
      one is wherever the parser finds it. */
  lemma DepthReadableExactly(body: seq<byte>)
    requires |body| >= BIDS_START
    ensures var at := AsksAt(body);
            var bidBlock, numBids := ReadU16Le(body, ROOT_SIZE), ReadU16Le(body, ROOT_SIZE + 2);
            DepthReadable(body) <==>
              && LevelsFit(|body|, BIDS_START, bidBlock, numBids)
              && (numBids > 0 && BIDS_START + bidBlock <= |body| ==> ExponentsInTable(body))
              && (at + DEPTH_GROUP_HEADER_SIZE <= |body| ==>
                    var askBlock, numAsks := ReadU16Le(body, at), ReadU16Le(body, at + 2);
                    var start := at + DEPTH_GROUP_HEADER_SIZE;
                    && LevelsFit(|body|, start, askBlock, numAsks)
                    && (numAsks > 0 && start + askBlock <= |body| ==> ExponentsInTable(body)))
  {
    var at := AsksAt(body);
    GroupReadableExactly(body, BIDS_START, ReadU16Le(body, ROOT_SIZE), ReadU16Le(body, ROOT_SIZE + 2));
    if at + DEPTH_GROUP_HEADER_SIZE <= |body| {
      GroupReadableExactly(body, at + DEPTH_GROUP_HEADER_SIZE, ReadU16Le(body, at), ReadU16Le(body, at + 2));
    }
  }

  /** Trades: exactly when a group that fits and is not empty has both exponents in the table and the 24 bytes
      of its last entry within the body. */
  lemma TradesReadableExactly(body: seq<byte>)
    ensures TradesReadable(body) <==>
            (|body| >= TRADES_START && TradeCount(body) > 0
             && TRADES_START + TradeBlock(body) * TradeCount(body) <= |body| ==>
               && ExponentsInTable(body)
               && TRADES_START + TradeBlock(body) * (TradeCount(body) - 1) + 24 <= |body|)
  {
    if |body| >= TRADES_START && TradeCount(body) > 0 {
      var last := TradeCount(body) - 1;
      TimesIsProduct(TradeBlock(body), last + 1);
      TimesIsProduct(TradeBlock(body), last);
      LastEntryDecides(|body|, TradeBlock(body), last);
    }
  }

  lemma LastEntryDecides(len: nat, block: nat, last: nat)
    ensures (forall i: nat | i < last + 1 :: EntryAt(TRADES_START, block, i) + 24 <= len)
            <==> EntryAt(TRADES_START, block, last) + 24 <= len
  {
    forall i: nat | i < last
      ensures EntryAt(TRADES_START, block, i) <= EntryAt(TRADES_START, block, last)
    {
      TimesMonotone(block, i, last);
    }
  }

  /** A body that announces no bid and one ask of 16 bytes, and ends in the middle of the ask. */
  function CutAsk(): (body: seq<byte>)
    ensures |body| == 34
  {
    Zeros(ROOT_SIZE) + (U16Bytes(16) + (U16Bytes(0) + (U16Bytes(16) + (U16Bytes(1) + [3, 65, 66, 67, 0, 0, 0, 0]))))
  }

  /** The asks header is found, but not the symbol: the half ask is taken for it. */
  lemma CutAskIsMisread(now: u64)
    ensures var body := CutAsk();
            && AsksAt(body) == BIDS_START && ReadU16Le(body, BIDS_START) == 16 && ReadU16Le(body, BIDS_START + 2) == 1
            && DepthReadable(body) && DepthIn(body, now).Some?
            && DepthIn(body, now).value.Depth5Msg?
            && var d := DepthIn(body, now).value.depth;
               d.bidLevel == 0 && d.askLevel == 0 && SymbolFromBytes(d.symbol) == [65, 66, 67]
  {
    CutAskFields();
    CutAskGroups();
    CutAskSymbol();
  }

  lemma CutAskFields()
    ensures var body := CutAsk();
            && ReadU16Le(body, 18) == 16 && ReadU16Le(body, 20) == 0
            && ReadU16Le(body, 22) == 16 && ReadU16Le(body, 24) == 1
  {
    var body := CutAsk();
    assert body[18..20] == U16Bytes(16) && body[20..22] == U16Bytes(0);
    assert body[22..24] == U16Bytes(16) && body[24..26] == U16Bytes(1);
    ReadBackU16(body, 18, 16);
    ReadBackU16(body, 20, 0);
    ReadBackU16(body, 22, 16);
    ReadBackU16(body, 24, 1);
  }

  lemma CutAskGroups()
    ensures LevelCount(34, BIDS_START, 16, 0) == 0 && LevelCount(34, 26, 16, 1) == 0
    ensures SideEnd(34, BIDS_START, 16, 0) == BIDS_START && SideEnd(34, 26, 16, 1) == 26
  {
    TimesIsProduct(16, 0);
  }

  lemma CutAskSymbol()
    ensures SymbolFromBytes(SymbolAt(CutAsk(), 26)) == [65, 66, 67]
  {
    var s: seq<byte> := [65, 66, 67];
    assert CutAsk()[27..30] == s;
    AsciiIsUtf8(s);
    SymbolRoundTrip(s);
  }

  /** A body that announces two bids of 16 bytes and ends in the middle of the second. */
  function CutBody(): (body: seq<byte>)
    ensures |body| == 46
  {
    Zeros(ROOT_SIZE) + (U16Bytes(16) + (U16Bytes(2) + (Zeros(16) + [16, 0, 0, 0, 3, 65, 66, 67])))
  }

  /** The parser takes the first half of the second bid for an asks header (of no levels) and the symbol that
      follows it, and emits a record under a symbol that the body does not hold. */
  lemma CutBodyIsMisread(now: u64)
    ensures var body := CutBody();
            && AsksAt(body) == 38 && AsksAt(body) + DEPTH_GROUP_HEADER_SIZE <= |body|
            && BIDS_START + 16 < AsksAt(body) + DEPTH_GROUP_HEADER_SIZE <= BIDS_START + 2 * 16
            && ReadU16Le(body, 38) == 16 && ReadU16Le(body, 40) == 0
            && DepthReadable(body) && DepthIn(body, now).Some?
            && DepthIn(body, now).value.Depth5Msg?
            && var d := DepthIn(body, now).value.depth;
               d.bidLevel == 1 && d.askLevel == 0 && SymbolFromBytes(d.symbol) == [65, 66, 67]
  {
    CutBodyFields();
    CutBodyGroups();
    CutBodySymbol();
  }

  /** One bid is read, the asks header is found at 38, and no ask behind it. */
  lemma CutBodyGroups()
    ensures LevelCount(46, BIDS_START, 16, 2) == 1 && LevelCount(46, 42, 16, 0) == 0
    ensures SideEnd(46, BIDS_START, 16, 2) == 38 && SideEnd(46, 42, 16, 0) == 42
    ensures forall i: nat | i < 1 :: EntryAt(BIDS_START, 16, i) == BIDS_START
  {
    TimesIsProduct(16, 0);
    TimesIsProduct(16, 1);
    TimesIsProduct(16, 2);
    LevelIsRead(46, BIDS_START, 16, 2, 0);
    LevelIsRead(46, BIDS_START, 16, 2, 1);
  }

  lemma CutBodyFields()
    ensures var body := CutBody();
            && ReadU16Le(body, 18) == 16 && ReadU16Le(body, 20) == 2
            && ReadU16Le(body, 38) == 16 && ReadU16Le(body, 40) == 0
            && body[16] == 0 && body[17] == 0
  {
    var body := CutBody();
    assert body[18..20] == U16Bytes(16) && body[20..22] == U16Bytes(2);
    ReadBackU16(body, 18, 16);
    ReadBackU16(body, 20, 2);
    TwoBytes(body, 38);
    TwoBytes(body, 40);
  }

  lemma TwoBytes(s: seq<byte>, at: nat)
    requires at + 2 <= |s|
    ensures var lo: int, hi: int := s[at], s[at + 1]; ReadU16Le(s, at) == lo + 256 * hi
  {
    var t := s[at..at + 2];
    assert LeValue(t) == t[0] + 256 * LeValue(t[1..]);
    assert LeValue(t[1..]) == t[1] + 256 * LeValue(t[1..][1..]);
  }

  lemma CutBodySymbol()
    ensures SymbolFromBytes(SymbolAt(CutBody(), 42)) == [65, 66, 67]
  {
    var s: seq<byte> := [65, 66, 67];
    assert CutBody()[43..46] == s;
    AsciiIsUtf8(s);
    SymbolRoundTrip(s);
  }

  // ---------------------------------------------------------------------------
  // Messages
  // ---------------------------------------------------------------------------

  predicate MessageReadable(data: seq<byte>) {
    |data| >= SBE_HEADER_SIZE ==>
      var template, body := ReadU16Le(data, 2), data[SBE_HEADER_SIZE..];
      && (template == TEMPLATE_BEST_BID_ASK ==> BbaReadable(body))
      && (template == TEMPLATE_TRADES ==> TradesReadable(body))
      && (template == TEMPLATE_DEPTH ==> DepthReadable(body))
  }

  /** Exponents in the table and block lengths that hold the fields that are read are enough, in every group
      header that the parser finds. In a frame that is cut off this may be a header that nobody wrote:
      SbeCuts says which cuts of a well-formed frame the parser survives. */
  lemma BlocksAreReadable(data: seq<byte>)
    requires |data| >= SBE_HEADER_SIZE + ROOT_SIZE ==> ExponentsInTable(data[SBE_HEADER_SIZE..])
    requires |data| >= SBE_HEADER_SIZE ==>
      var template, body := ReadU16Le(data, 2), data[SBE_HEADER_SIZE..];
      && (template == TEMPLATE_TRADES && |body| >= TRADES_START ==> TradeBlock(body) >= 24)
      && (template == TEMPLATE_DEPTH && |body| >= BIDS_START ==>
            ReadU16Le(body, ROOT_SIZE) >= 16
            && (AsksAt(body) + DEPTH_GROUP_HEADER_SIZE <= |body| ==> ReadU16Le(body, AsksAt(body)) >= 16))
    ensures MessageReadable(data)
  {
    if |data| >= SBE_HEADER_SIZE + ROOT_SIZE {
      var template, body := ReadU16Le(data, 2), data[SBE_HEADER_SIZE..];
      if template == TEMPLATE_TRADES {
        TradesOfBlockAreReadable(body);
      } else if template == TEMPLATE_DEPTH && |body| >= BIDS_START {
        LevelsOfBlockAreReadable(body, BIDS_START, ReadU16Le(body, ROOT_SIZE),
                                 Min(ReadU16Le(body, ROOT_SIZE + 2), MAX_LEVELS));
        var at := AsksAt(body);
        if at + DEPTH_GROUP_HEADER_SIZE <= |body| {
          LevelsOfBlockAreReadable(body, at + DEPTH_GROUP_HEADER_SIZE, ReadU16Le(body, at),
                                   Min(ReadU16Le(body, at + 2), MAX_LEVELS));
        }
      }
    }
  }

  function OptionToSeq(o: Option<MarketDataMsg>): seq<MarketDataMsg> {
    match o
    case None => []
    case Some(m) => [m]
  }

  /** The messages of a frame. */
  function MessagesIn(data: seq<byte>, now: u64): seq<MarketDataMsg>
    requires MessageReadable(data)
  {
    if |data| < SBE_HEADER_SIZE then []
    else
      var template, body := ReadU16Le(data, 2), data[SBE_HEADER_SIZE..];
      if template == TEMPLATE_BEST_BID_ASK then OptionToSeq(ParseBestBidAsk(body, now))
      else if template == TEMPLATE_TRADES then TradesIn(body, now)
      else if template == TEMPLATE_DEPTH then OptionToSeq(DepthIn(body, now))
      else []
  }

  method ParseSbeMessage(data: seq<byte>, now: u64) returns (msgs: seq<MarketDataMsg>)
    requires MessageReadable(data)
    ensures msgs == MessagesIn(data, now)
  {
    if |data| < SBE_HEADER_SIZE {
      return [];
    }
    var templateId, body := ReadU16Le(data, 2), data[SBE_HEADER_SIZE..];
    if templateId == TEMPLATE_BEST_BID_ASK {
      msgs := OptionToSeq(ParseBestBidAsk(body, now));
    } else if templateId == TEMPLATE_TRADES {
      msgs := ParseTrades(body, now);
    } else if templateId == TEMPLATE_DEPTH {
      var depth := ParseDepth(body, now);
      msgs := OptionToSeq(depth);
    } else {
      msgs := [];
    }
  }
}
