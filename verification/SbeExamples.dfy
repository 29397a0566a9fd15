/** Frames written out byte by byte, and the messages they are decoded to: the repository's own test frames. */
module SbeExamples {
  import opened Bytes
  import opened Symbols
  import opened MarketData
  import opened Streams
  import opened SbeParser
  import opened SbeCodec

  /** A quote for BTCUSDT: 1.5 bid at 30000.50, 2 asked at 30001. */
  const QUOTE_FRAME: seq<byte> :=
    [0, 0] + ([17, 39] + ([1, 0] + ([1, 0] + (
      ([0, 64, 30, 24, 36, 10, 6, 0] + ([42, 0, 0, 0, 0, 0, 0, 0] + [254, 252]))
      + ([242, 198, 45, 0, 0, 0, 0, 0] + ([152, 58, 0, 0, 0, 0, 0, 0]
      + ([36, 199, 45, 0, 0, 0, 0, 0] + ([32, 78, 0, 0, 0, 0, 0, 0]
      + ([7] + [66, 84, 67, 85, 83, 68, 84])))))))))

  /** Two trades of ETHUSDT: 1.5 at 30000.50 with the buyer as maker, and 0.5 at 30001. */
  const TRADES_FRAME: seq<byte> :=
    [0, 0] + ([16, 39] + ([1, 0] + ([1, 0] + (
      ([0, 64, 30, 24, 36, 10, 6, 0] + ([100, 64, 30, 24, 36, 10, 6, 0] + [254, 253]))
      + ([25, 0] + ([2, 0, 0, 0] + (
        (([161, 134, 1, 0, 0, 0, 0, 0] + ([242, 198, 45, 0, 0, 0, 0, 0]
          + ([220, 5, 0, 0, 0, 0, 0, 0] + [1])))
         + ([162, 134, 1, 0, 0, 0, 0, 0] + ([36, 199, 45, 0, 0, 0, 0, 0]
            + ([244, 1, 0, 0, 0, 0, 0, 0] + [0]))))
        + ([7] + [69, 84, 72, 85, 83, 68, 84]))))))))

  /** Depth of BTCUSDT: 1 bid at 30000, 2 at 29999.50, 0.8 asked at 30000.50. */
  const DEPTH_FRAME: seq<byte> :=
    [0, 0] + ([18, 39] + ([1, 0] + ([1, 0] + (
      ([0, 64, 30, 24, 36, 10, 6, 0] + ([231, 3, 0, 0, 0, 0, 0, 0] + [254, 253]))
      + (([16, 0] + ([2, 0] + (
           ([192, 198, 45, 0, 0, 0, 0, 0] + [232, 3, 0, 0, 0, 0, 0, 0])
           + ([142, 198, 45, 0, 0, 0, 0, 0] + [208, 7, 0, 0, 0, 0, 0, 0]))))
         + (([16, 0] + ([1, 0] + (
              [242, 198, 45, 0, 0, 0, 0, 0] + [32, 3, 0, 0, 0, 0, 0, 0])))
            + ([7] + [66, 84, 67, 85, 83, 68, 84])))))))

  const QUOTE: SbeMsg := BestBidAsk(Root(1700000000000000, 42, -2, -4), 3000050, 15000, 3000100, 20000, BTCUSDT)
  const TRADES: SbeMsg := TradeGroup(Root(1700000000000000, 1700000000000100, -2, -3), 25,
                                     [TRADE_ONE, TRADE_TWO], ETHUSDT)
  const TRADE_ONE: Entry := Entry(100001, 3000050, 1500, 1, [])
  const TRADE_TWO: Entry := Entry(100002, 3000100, 500, 0, [])
  const DEPTH: SbeMsg := DepthGroups(Root(1700000000000000, 999, -2, -3), 16, [BID_ONE, BID_TWO],
                                     16, [ASK_ONE], BTCUSDT)
  const BID_ONE: Level := Level(3000000, 1000, [])
  const BID_TWO: Level := Level(2999950, 2000, [])
  const ASK_ONE: Level := Level(3000050, 800, [])
  const BTCUSDT: seq<byte> := [66, 84, 67, 85, 83, 68, 84]
  const ETHUSDT: seq<byte> := [69, 84, 72, 85, 83, 68, 84]

  // ---------------------------------------------------------------------------
  // The numbers as bytes
  // ---------------------------------------------------------------------------

  lemma {:induction false} ZeroBytes(n: nat)
    ensures LeBytes(n, 0) == Zeros(n)
  {
    if n > 0 {
      LeBytesTail(n, 0);
      ZeroBytes(n - 1);
    }
  }

  /** A number of at most three bytes in eight. */
  lemma SmallBytes(v: u64, a: byte, b: byte, c: byte)
    requires v == a + 256 * b + 65536 * c
    ensures U64Bytes(v) == [a, b, c, 0, 0, 0, 0, 0]
  {
    LeBytesTail(8, v);
    assert v % 256 == a && v / 256 == b + 256 * c;
    LeBytesTail(7, v / 256);
    assert (v / 256) % 256 == b && v / 256 / 256 == c;
    LeBytesTail(6, c);
    ZeroBytes(5);
  }

  lemma TwoByteNumber(v: u16, a: byte, b: byte)
    requires v == a + 256 * b
    ensures U16Bytes(v) == [a, b]
  {
    LeBytesTail(2, v);
    LeBytesTail(1, v / 256);
    ZeroBytes(0);
  }

  lemma FourByteNumber(v: u32, a: byte)
    requires v == a
    ensures U32Bytes(v) == [a, 0, 0, 0]
  {
    LeBytesTail(4, v);
    ZeroBytes(3);
  }

  /** The time 1700000000000000 and up to 255 microseconds. */
  lemma TimeBytes(low: byte)
    ensures U64Bytes(1700000000000000 + low) == [low, 64, 30, 24, 36, 10, 6, 0]
  {
    LeBytesTail(8, 1700000000000000 + low);
    assert (1700000000000000 + low) / 256 == 6640625000000;
    TimeRest();
  }

  lemma TimeRest()
    ensures LeBytes(7, 6640625000000) == [64, 30, 24, 36, 10, 6, 0]
  {
    LeBytesTail(7, 6640625000000);
    LeBytesTail(6, 25939941406);
    LeBytesTail(5, 101327896);
    TimeTop();
  }

  lemma TimeTop()
    ensures LeBytes(4, 395812) == [36, 10, 6, 0]
  {
    LeBytesTail(4, 395812);
    LeBytesTail(3, 1546);
    LeBytesTail(2, 6);
    LeBytesTail(1, 0);
    ZeroBytes(0);
  }

  lemma HeaderBytes()
    ensures U16Bytes(0) == [0, 0] && U16Bytes(1) == [1, 0]
    ensures U16Bytes(10000) == [16, 39] && U16Bytes(10001) == [17, 39] && U16Bytes(10002) == [18, 39]
  {
    TwoByteNumber(0, 0, 0);
    TwoByteNumber(1, 1, 0);
    TwoByteNumber(10000, 16, 39);
    TwoByteNumber(10001, 17, 39);
    TwoByteNumber(10002, 18, 39);
  }

  lemma SevenLetters(s: seq<byte>)
    requires |s| == 7 && forall i | 0 <= i < |s| :: s[i] < 0x80
    ensures Utf8Valid(s) && SymbolToBytes(s) == s + Zeros(25)
  {
    AsciiIsUtf8(s);
    assert s[..7] == s;
  }

  lemma SymbolsAreText()
    ensures Utf8Valid(BTCUSDT) && SymbolToBytes(BTCUSDT) == BTCUSDT + Zeros(25)
    ensures Utf8Valid(ETHUSDT) && SymbolToBytes(ETHUSDT) == ETHUSDT + Zeros(25)
  {
    SevenLetters(BTCUSDT);
    SevenLetters(ETHUSDT);
  }

  lemma Powers()
    ensures PowerOfTen(-2) == 0.01 && PowerOfTen(-3) == 0.001 && PowerOfTen(-4) == 0.0001
  {
    assert PowerOfTen(-1) == 0.1;
  }

  // ---------------------------------------------------------------------------
  // A quote
  // ---------------------------------------------------------------------------

  lemma QuoteIsEncoded()
    ensures WellFormed(QUOTE) && Encode(QUOTE, 0, 1, 1) == QUOTE_FRAME
  {
    HeaderBytes();
    TimeBytes(0);
    SmallBytes(42, 42, 0, 0);
    SmallBytes(3000050, 242, 198, 45);
    SmallBytes(15000, 152, 58, 0);
    SmallBytes(3000100, 36, 199, 45);
    SmallBytes(20000, 32, 78, 0);
  }

  lemma QuoteFrameDecodes(now: u64)
    ensures MessageReadable(QUOTE_FRAME)
    ensures MessagesIn(QUOTE_FRAME, now) == [BboMsg(Bookticker(
      BTCUSDT + Zeros(25), Spot, 1700000000000000, 1700000000000000, 42,
      30000.50, 1.5, 30001.00, 2.0, 0, 0, now))]
  {
    QuoteIsEncoded();
    DecodeEncode(QUOTE, 0, 1, 1, [], now);
    assert QUOTE_FRAME + [] == QUOTE_FRAME;
    Powers();
    SymbolsAreText();
  }

  // ---------------------------------------------------------------------------
  // Trades
  // ---------------------------------------------------------------------------

  lemma TwoParts(a: seq<byte>, b: seq<byte>)
    ensures Flatten([a, b]) == a + b && Flatten([a]) == a
  {
    assert [a, b][..1] == [a] && |[a][..0]| == 0;
    assert Flatten([a]) == Flatten([a][..0]) + a;
  }

  lemma TradeEntriesAreEncoded()
    ensures EncodeEntry(TRADE_ONE) == U64Bytes(100001) + (I64Bytes(3000050) + (I64Bytes(1500) + [1]))
    ensures EncodeEntry(TRADE_TWO) == U64Bytes(100002) + (I64Bytes(3000100) + (I64Bytes(500) + [0]))
    ensures Flatten(Entries([TRADE_ONE, TRADE_TWO])) == EncodeEntry(TRADE_ONE) + EncodeEntry(TRADE_TWO)
  {
    assert Entries([TRADE_ONE, TRADE_TWO]) == [EncodeEntry(TRADE_ONE), EncodeEntry(TRADE_TWO)];
    TwoParts(EncodeEntry(TRADE_ONE), EncodeEntry(TRADE_TWO));
    assert [TRADE_ONE.maker] + TRADE_ONE.padding == [1] && [TRADE_TWO.maker] + TRADE_TWO.padding == [0];
  }

  lemma TradesAreEncoded()
    ensures WellFormed(TRADES) && Encode(TRADES, 0, 1, 1) == TRADES_FRAME
  {
    HeaderBytes();
    TwoByteNumber(25, 25, 0);
    FourByteNumber(2, 2);
    TimeBytes(0);
    TimeBytes(100);
    TradeEntriesAreEncoded();
    SmallBytes(100001, 161, 134, 1);
    SmallBytes(3000050, 242, 198, 45);
    SmallBytes(1500, 220, 5, 0);
    SmallBytes(100002, 162, 134, 1);
    SmallBytes(3000100, 36, 199, 45);
    SmallBytes(500, 244, 1, 0);
  }

  lemma TradeOneSays(symbol: SymbolBuf, now: u64)
    ensures TradeOf(TRADES.root, TRADE_ONE, symbol, now)
            == Trade(symbol, Spot, 1700000000000000, 1700000000000100, 100001, 30000.50, 1.5, true, now)
  {
    Powers();
  }

  lemma TradeTwoSays(symbol: SymbolBuf, now: u64)
    ensures TradeOf(TRADES.root, TRADE_TWO, symbol, now)
            == Trade(symbol, Spot, 1700000000000000, 1700000000000100, 100002, 30001.00, 0.5, false, now)
  {
    Powers();
  }

  lemma TradesFrameDecodes(now: u64)
    ensures MessageReadable(TRADES_FRAME)
    ensures var symbol, msgs := ETHUSDT + Zeros(25), MessagesIn(TRADES_FRAME, now);
            && |msgs| == 2
            && msgs[0] == TradeMsg(Trade(symbol, Spot, 1700000000000000, 1700000000000100, 100001,
                                         30000.50, 1.5, true, now))
            && msgs[1] == TradeMsg(Trade(symbol, Spot, 1700000000000000, 1700000000000100, 100002,
                                         30001.00, 0.5, false, now))
  {
    TradesAreEncoded();
    DecodeEncode(TRADES, 0, 1, 1, [], now);
    assert TRADES_FRAME + [] == TRADES_FRAME;
    TradeOneSays(SymbolOf(TRADES), now);
    TradeTwoSays(SymbolOf(TRADES), now);
    SymbolsAreText();
    assert MessagesIn(TRADES_FRAME, now) == Meaning(TRADES, now);
  }

  // ---------------------------------------------------------------------------
  // Depth
  // ---------------------------------------------------------------------------

  lemma LevelIsEncoded(l: Level)
    requires l.padding == []
    ensures EncodeLevel(l) == I64Bytes(l.price) + I64Bytes(l.qty)
  {
    assert I64Bytes(l.qty) + l.padding == I64Bytes(l.qty);
  }

  lemma LevelsAreEncoded()
    ensures Flatten(Levels([BID_ONE, BID_TWO])) == EncodeLevel(BID_ONE) + EncodeLevel(BID_TWO)
    ensures Flatten(Levels([ASK_ONE])) == EncodeLevel(ASK_ONE)
  {
    assert Levels([BID_ONE, BID_TWO]) == [EncodeLevel(BID_ONE), EncodeLevel(BID_TWO)];
    assert Levels([ASK_ONE]) == [EncodeLevel(ASK_ONE)];
    TwoParts(EncodeLevel(BID_ONE), EncodeLevel(BID_TWO));
    TwoParts(EncodeLevel(ASK_ONE), []);
  }

  lemma DepthIsEncoded()
    ensures WellFormed(DEPTH) && Encode(DEPTH, 0, 1, 1) == DEPTH_FRAME
  {
    HeaderBytes();
    TwoByteNumber(16, 16, 0);
    TwoByteNumber(2, 2, 0);
    TimeBytes(0);
    LevelsAreEncoded();
    LevelIsEncoded(BID_ONE);
    LevelIsEncoded(BID_TWO);
    LevelIsEncoded(ASK_ONE);
    SmallBytes(999, 231, 3, 0);
    SmallBytes(3000000, 192, 198, 45);
    SmallBytes(1000, 232, 3, 0);
    SmallBytes(2999950, 142, 198, 45);
    SmallBytes(2000, 208, 7, 0);
    SmallBytes(3000050, 242, 198, 45);
    SmallBytes(800, 32, 3, 0);
  }

  lemma LevelsSay()
    ensures Decimal(3000000, -2) == 30000.0 && Decimal(1000, -3) == 1.0
    ensures Decimal(2999950, -2) == 29999.5 && Decimal(2000, -3) == 2.0
    ensures Decimal(3000050, -2) == 30000.5 && Decimal(800, -3) == 0.8
  {
    Powers();
  }

  lemma BidsSay(side: Side)
    requires side == SideOf(DEPTH.root, [BID_ONE, BID_TWO])
    ensures side.prices == [30000.0, 29999.5, 0.0, 0.0, 0.0] && side.vols == [1.0, 2.0, 0.0, 0.0, 0.0]
    ensures side.level == 2
  {
    LevelsSay();
  }

  lemma AsksSay(side: Side)
    requires side == SideOf(DEPTH.root, [ASK_ONE])
    ensures side.prices == [30000.5, 0.0, 0.0, 0.0, 0.0] && side.vols == [0.8, 0.0, 0.0, 0.0, 0.0] && side.level == 1
  {
    LevelsSay();
  }

  lemma DepthFrameDecodes(now: u64)
    ensures MessageReadable(DEPTH_FRAME)
    ensures var symbol, msgs := BTCUSDT + Zeros(25), MessagesIn(DEPTH_FRAME, now);
            && |msgs| == 1 && msgs[0].Depth5Msg?
            && var d := msgs[0].depth;
               && d.symbol == symbol && d.productType == Spot && d.localTimeUs == now
               && d.eventTimestampUs == d.tradeTimestampUs == 1700000000000000 && d.updateId == 999
               && d.bidLevel == 2 && d.askLevel == 1 && d.lastPrice == 0.0
               && d.bidPrices == [30000.0, 29999.5, 0.0, 0.0, 0.0] && d.bidVols == [1.0, 2.0, 0.0, 0.0, 0.0]
               && d.askPrices == [30000.5, 0.0, 0.0, 0.0, 0.0] && d.askVols == [0.8, 0.0, 0.0, 0.0, 0.0]
               && d.bidOrderCounts == d.askOrderCounts == [0, 0, 0, 0, 0]
  {
    DepthIsEncoded();
    DecodeEncode(DEPTH, 0, 1, 1, [], now);
    assert DEPTH_FRAME + [] == DEPTH_FRAME;
    BidsSay(SideOf(DEPTH.root, [BID_ONE, BID_TWO]));
    AsksSay(SideOf(DEPTH.root, [ASK_ONE]));
    SymbolsAreText();
  }
}
