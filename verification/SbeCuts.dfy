/** Well-formed frames that are cut off: which of them the parser survives. */
module SbeCuts {
  import opened Bytes
  import opened Multiples
  import opened Symbols
  import opened MarketData
  import opened Streams
  import opened SbeParser
  import opened SbeCodec

  /** The two header fields that the parser finds in the first four bytes of a price. */
  function FirstHalf(price: i64): u16 {
    U64OfI64(price) % 0x1_0000
  }

  function SecondHalf(price: i64): u16 {
    U64OfI64(price) / 0x1_0000 % 0x1_0000
  }

  /** How many bids lie whole in the first `cut` bytes of a depth body. */
  function WholeBids(bidBlock: u16, numBids: nat, cut: nat): nat {
    LevelCount(cut, BIDS_START, bidBlock, Min(numBids, MAX_LEVELS))
  }

  /** The condition under which the parser survives a depth body cut behind its group header: the bids that
      are read are all there; or there are more than five, so that the asks header is looked for behind the cut;
      or the price of the first bid that is not whole ends behind the cut before it could be a group header;
      or, taken for a group header, it announces no level that is shorter than the fields read from it. */
  predicate DepthCutIsSafe(bidBlock: u16, bids: seq<Level>, cut: nat) {
    var whole := WholeBids(bidBlock, |bids|, cut);
    || whole == Min(|bids|, MAX_LEVELS)
    || |bids| > MAX_LEVELS
    || (var header := EntryAt(BIDS_START, bidBlock, whole);
        || header + DEPTH_GROUP_HEADER_SIZE > cut
        || LevelsFit(cut, header + DEPTH_GROUP_HEADER_SIZE, FirstHalf(bids[whole].price),
                     SecondHalf(bids[whole].price)))
  }

  // ---------------------------------------------------------------------------
  // Reading a prefix
  // ---------------------------------------------------------------------------

  lemma AtPrefix(full: seq<byte>, cut: nat, offset: nat, s: seq<byte>)
    requires cut <= |full| && At(full, offset, s) && offset + |s| <= cut
    ensures At(full[..cut], offset, s)
  {
    assert full[..cut][offset..offset + |s|] == full[offset..offset + |s|];
  }

  lemma U16OfPrefix(full: seq<byte>, cut: nat, offset: nat)
    requires offset + 2 <= cut <= |full|
    ensures ReadU16Le(full[..cut], offset) == ReadU16Le(full, offset)
  {
    assert full[..cut][offset..offset + 2] == full[offset..offset + 2];
  }

  lemma LowTwoBytes(v: nat)
    ensures v % 256 + 256 * (v / 256 % 256) == v % 0x1_0000
  {
    var low, rest := v % 256, v / 256;
    assert v == (low + 256 * (rest % 256)) + 0x1_0000 * (rest / 256);
    QuotientUnique(v, 0x1_0000, rest / 256, low + 256 * (rest % 256));
  }

  lemma BytesOfWord(v: u64)
    ensures var s := U64Bytes(v);
            && s[0] == v % 256 && s[1] == v / 256 % 256
            && s[2] == v / 0x1_0000 % 256 && s[3] == v / 0x100_0000 % 256
  {
    Pow256Widths();
    assert Pow256(3) == 256 * Pow256(2);
  }

  lemma FourBytes(v: u64)
    ensures ReadU16Le(U64Bytes(v), 0) == v % 0x1_0000
    ensures ReadU16Le(U64Bytes(v), 2) == v / 0x1_0000 % 0x1_0000
  {
    TwoBytes(U64Bytes(v), 0);
    TwoBytes(U64Bytes(v), 2);
    BytesOfWord(v);
    LowTwoBytes(v);
    LowTwoBytes(v / 0x1_0000);
    assert v / 0x100_0000 == v / 0x1_0000 / 256;
  }

  /** The start of a price, taken for a group header. */
  lemma HeaderOfPrice(full: seq<byte>, cut: nat, offset: nat, price: i64)
    requires cut <= |full| && At(full, offset, I64Bytes(price)) && offset + DEPTH_GROUP_HEADER_SIZE <= cut
    ensures ReadU16Le(full[..cut], offset) == FirstHalf(price)
    ensures ReadU16Le(full[..cut], offset + 2) == SecondHalf(price)
  {
    var s := I64Bytes(price);
    FourBytes(U64OfI64(price));
    U16OfPrefix(full, cut, offset);
    U16OfPrefix(full, cut, offset + 2);
    SubRange(full, offset, 8, 0, 2);
    SubRange(full, offset, 8, 2, 4);
  }

  // ---------------------------------------------------------------------------
  // Depth
  // ---------------------------------------------------------------------------

  lemma LevelsOfWireFit(len: nat, start: nat, block: u16, levels: seq<Level>)
    requires LevelsFill(block, levels)
    ensures |levels| > 0 ==> block >= 16
    ensures LevelsFit(len, start, block, |levels|)
  {
    if |levels| > 0 {
      LevelFills(block, levels, 0);
    }
  }

  /** What the parser finds in a cut body: the bids header as it was written, and where it looks for the asks. */
  lemma CutDepthHeaders(m: SbeMsg, cut: nat)
    requires m.DepthGroups? && WellFormed(m) && BIDS_START <= cut <= |EncodeBody(m)|
    ensures var body := EncodeBody(m)[..cut];
            && ExponentsInTable(body)
            && ReadU16Le(body, ROOT_SIZE) == m.bidBlock && ReadU16Le(body, ROOT_SIZE + 2) == |m.bids|
            && AsksAt(body) == SideEnd(cut, BIDS_START, m.bidBlock, |m.bids|)
  {
    var full := EncodeBody(m);
    assert full[0..|full|] == full;
    DepthGroupsLie(m, full);
    AtRoot(full, m.root);
    AtPrefix(full, cut, 0, EncodeRoot(m.root));
    AtRoot(full[..cut], m.root);
    AtLevels(full, ROOT_SIZE, m.bidBlock, m.bids);
    U16OfPrefix(full, cut, ROOT_SIZE);
    U16OfPrefix(full, cut, ROOT_SIZE + 2);
  }

  /** Behind whole bids there is the asks header as it was written. */
  lemma AsksHeaderOfCut(m: SbeMsg, cut: nat)
    requires m.DepthGroups? && WellFormed(m) && cut <= |EncodeBody(m)|
    requires EntryAt(BIDS_START, m.bidBlock, |m.bids|) + DEPTH_GROUP_HEADER_SIZE <= cut
    ensures var body, at := EncodeBody(m)[..cut], EntryAt(BIDS_START, m.bidBlock, |m.bids|);
            ReadU16Le(body, at) == m.askBlock && ReadU16Le(body, at + 2) == |m.asks|
  {
    var full, at := EncodeBody(m), EntryAt(BIDS_START, m.bidBlock, |m.bids|);
    assert full[0..|full|] == full;
    DepthGroupsLie(m, full);
    FlattenLength(Levels(m.bids), m.bidBlock);
    AtLevels(full, at, m.askBlock, m.asks);
    U16OfPrefix(full, cut, at);
    U16OfPrefix(full, cut, at + 2);
  }

  /** Behind bids that are not all there, there is the price of the next one. */
  lemma PhantomHeaderOfCut(m: SbeMsg, cut: nat, i: nat)
    requires m.DepthGroups? && WellFormed(m) && cut <= |EncodeBody(m)| && i < |m.bids|
    requires EntryAt(BIDS_START, m.bidBlock, i) + DEPTH_GROUP_HEADER_SIZE <= cut
    ensures var body, at := EncodeBody(m)[..cut], EntryAt(BIDS_START, m.bidBlock, i);
            && ReadU16Le(body, at) == FirstHalf(m.bids[i].price)
            && ReadU16Le(body, at + 2) == SecondHalf(m.bids[i].price)
  {
    var full, at, bid := EncodeBody(m), EntryAt(BIDS_START, m.bidBlock, i), m.bids[i];
    assert full[0..|full|] == full;
    DepthGroupsLie(m, full);
    AtLevels(full, ROOT_SIZE, m.bidBlock, m.bids);
    AtBlock(full, BIDS_START, Levels(m.bids), m.bidBlock, i);
    AtSplit(full, at, I64Bytes(bid.price), I64Bytes(bid.qty) + bid.padding);
    HeaderOfPrice(full, cut, at, bid.price);
  }

  /** Where the parser is after a bids group that is cut. */
  lemma CutGroupEnd(cut: nat, block: u16, num: nat)
    requires BIDS_START <= cut && (num > 0 ==> block >= 16)
    ensures var whole, end := WholeBids(block, num, cut), SideEnd(cut, BIDS_START, block, num);
            if whole == Min(num, MAX_LEVELS) then end == EntryAt(BIDS_START, block, num)
            else if num > MAX_LEVELS then end > cut
            else whole < num && end == EntryAt(BIDS_START, block, whole)
  {
    var want := Min(num, MAX_LEVELS);
    var whole := WholeBids(block, num, cut);
    if whole == want {
      TimesSum(block, want, num - want);
    } else {
      LevelIsRead(cut, BIDS_START, block, want, whole);
      if num > MAX_LEVELS {
        TimesFront(block, num - want - 1);
      }
    }
  }

  /** What the parser takes for the asks group fits if and only if the cut is safe. */
  lemma AsksOfCutFit(m: SbeMsg, cut: nat, at: nat)
    requires m.DepthGroups? && WellFormed(m) && BIDS_START <= cut <= |EncodeBody(m)|
    requires at == SideEnd(cut, BIDS_START, m.bidBlock, |m.bids|) && at + DEPTH_GROUP_HEADER_SIZE <= cut
    ensures var body := EncodeBody(m)[..cut];
            LevelsFit(cut, at + DEPTH_GROUP_HEADER_SIZE, ReadU16Le(body, at), ReadU16Le(body, at + 2))
            <==> DepthCutIsSafe(m.bidBlock, m.bids, cut)
  {
    LevelsOfWireFit(cut, BIDS_START, m.bidBlock, m.bids);
    CutGroupEnd(cut, m.bidBlock, |m.bids|);
    var whole := WholeBids(m.bidBlock, |m.bids|, cut);
    if whole == Min(|m.bids|, MAX_LEVELS) {
      AsksHeaderOfCut(m, cut);
      LevelsOfWireFit(cut, at + DEPTH_GROUP_HEADER_SIZE, m.askBlock, m.asks);
    } else {
      PhantomHeaderOfCut(m, cut, whole);
    }
  }

  /** With the bids header as it was written, only the asks group matters. */
  lemma AsksDecide(m: SbeMsg, cut: nat)
    requires m.DepthGroups? && WellFormed(m) && BIDS_START <= cut <= |EncodeBody(m)|
    ensures var body := EncodeBody(m)[..cut];
            var at := AsksAt(body);
            && at == SideEnd(cut, BIDS_START, m.bidBlock, |m.bids|)
            && (DepthReadable(body) <==>
                (at + DEPTH_GROUP_HEADER_SIZE <= cut ==>
                   LevelsFit(cut, at + DEPTH_GROUP_HEADER_SIZE, ReadU16Le(body, at), ReadU16Le(body, at + 2))))
  {
    CutDepthHeaders(m, cut);
    DepthReadableExactly(EncodeBody(m)[..cut]);
    LevelsOfWireFit(cut, BIDS_START, m.bidBlock, m.bids);
  }

  /** A depth body cut anywhere is read without a panic if and only if the cut is safe. */
  lemma CutDepthReadable(m: SbeMsg, cut: nat)
    requires m.DepthGroups? && WellFormed(m) && cut <= |EncodeBody(m)|
    ensures DepthReadable(EncodeBody(m)[..cut]) <==> cut < BIDS_START || DepthCutIsSafe(m.bidBlock, m.bids, cut)
  {
    if cut >= BIDS_START {
      AsksDecide(m, cut);
      var at := SideEnd(cut, BIDS_START, m.bidBlock, |m.bids|);
      if at + DEPTH_GROUP_HEADER_SIZE <= cut {
        AsksOfCutFit(m, cut, at);
      } else {
        LevelsOfWireFit(cut, BIDS_START, m.bidBlock, m.bids);
        CutGroupEnd(cut, m.bidBlock, |m.bids|);
      }
    }
  }

  // ---------------------------------------------------------------------------
  // Trades, best bid and ask
  // ---------------------------------------------------------------------------

  lemma CutRoot(m: SbeMsg, cut: nat)
    requires WellFormed(m) && ROOT_SIZE <= cut <= |EncodeBody(m)|
    ensures ExponentsInTable(EncodeBody(m)[..cut])
  {
    var full, root := EncodeBody(m), EncodeRoot(m.root);
    assert full[0..ROOT_SIZE] == root;
    AtPrefix(full, cut, 0, root);
    AtRoot(full[..cut], m.root);
  }

  lemma EntriesHoldFields(block: u16, entries: seq<Entry>)
    requires EntriesFill(block, entries) && |entries| > 0
    ensures block >= 25
  {
    EntryFills(block, entries, 0);
  }

  lemma EntryFills(block: u16, entries: seq<Entry>, i: nat)
    requires EntriesFill(block, entries) && i < |entries|
    ensures 25 + |entries[i].padding| == block
  {
  }

  lemma LevelFills(block: u16, levels: seq<Level>, i: nat)
    requires LevelsFill(block, levels) && i < |levels|
    ensures 16 + |levels[i].padding| == block
  {
  }

  lemma CutTradesReadable(m: SbeMsg, cut: nat)
    requires m.TradeGroup? && WellFormed(m) && cut <= |EncodeBody(m)|
    ensures TradesReadable(EncodeBody(m)[..cut])
  {
    if cut >= TRADES_START {
      var full := EncodeBody(m);
      assert full[0..|full|] == full;
      TradeGroupLies(m, full);
      CutRoot(m, cut);
      var body := full[..cut];
      assert body[18..20] == full[18..20] && body[20..24] == full[20..24];
      if |m.entries| > 0 {
        EntriesHoldFields(m.block, m.entries);
        TradesOfBlockAreReadable(body);
      }
    }
  }

  // ---------------------------------------------------------------------------
  // What a cut body says
  // ---------------------------------------------------------------------------

  /** A string that is cut off is read as far as it goes. */
  lemma CutString(full: seq<byte>, cut: nat, offset: nat, s: seq<byte>)
    requires |s| < 0x100 && At(full, offset, EncodeString(s)) && cut <= |full|
    ensures ReadVarString8(full[..cut], offset) == if cut <= offset then [] else s[..Min(cut - offset - 1, |s|)]
  {
    AtSplit(full, offset, [|s|], s);
    AtByte(full, offset, |s|);
    if cut > offset {
      var end := Min(offset + 1 + |s|, cut);
      assert full[..cut][offset + 1..end] == full[offset + 1..end];
      SubRange(full, offset + 1, |s|, 0, end - offset - 1);
    }
  }

  /** The message with what is left of its symbol after `n` bytes. */
  function SymbolCut(m: SbeMsg, n: nat): SbeMsg {
    var left := m.symbol[..Min(n, |m.symbol|)];
    match m
    case BestBidAsk(r, bidPrice, bidQty, askPrice, askQty, _) => BestBidAsk(r, bidPrice, bidQty, askPrice, askQty, left)
    case TradeGroup(r, block, entries, _) => TradeGroup(r, block, entries, left)
    case DepthGroups(r, bidBlock, bids, askBlock, asks, _) => DepthGroups(r, bidBlock, bids, askBlock, asks, left)
  }

  /** The fields of a quote, wherever its body ends behind them. */
  lemma QuoteFields(m: SbeMsg, cut: nat)
    requires m.BestBidAsk? && WellFormed(m) && 51 <= cut <= |EncodeBody(m)|
    ensures var body := EncodeBody(m)[..cut];
            && At(body, 0, EncodeRoot(m.root))
            && ReadI64Le(body, 18) == m.bidPrice && ReadI64Le(body, 26) == m.bidQty
            && ReadI64Le(body, 34) == m.askPrice && ReadI64Le(body, 42) == m.askQty
    ensures At(EncodeBody(m), 50, EncodeString(m.symbol))
  {
    var full, s := EncodeBody(m), EncodeString(m.symbol);
    assert full[0..|full|] == full;
    var askQ := I64Bytes(m.askQty) + s;
    AtFour(full, 0, EncodeRoot(m.root), I64Bytes(m.bidPrice), I64Bytes(m.bidQty), I64Bytes(m.askPrice) + askQ);
    AtSplit(full, 34, I64Bytes(m.askPrice), askQ);
    AtSplit(full, 42, I64Bytes(m.askQty), s);
    AtPrefix(full, cut, 0, EncodeRoot(m.root));
    I64OfPrefix(full, cut, 18, m.bidPrice);
    I64OfPrefix(full, cut, 26, m.bidQty);
    I64OfPrefix(full, cut, 34, m.askPrice);
    I64OfPrefix(full, cut, 42, m.askQty);
  }

  lemma I64OfPrefix(full: seq<byte>, cut: nat, offset: nat, v: i64)
    requires cut <= |full| && At(full, offset, I64Bytes(v)) && offset + 8 <= cut
    ensures ReadI64Le(full[..cut], offset) == v
  {
    AtPrefix(full, cut, offset, I64Bytes(v));
    ReadBackI64(full[..cut], offset, v);
  }

  /** A quote that is cut off before its symbol gives nothing, and one that is cut off in it gives the quote under
      what is left of the symbol. */
  lemma CutQuote(m: SbeMsg, cut: nat, now: u64)
    requires m.BestBidAsk? && WellFormed(m) && cut <= |EncodeBody(m)|
    ensures BbaReadable(EncodeBody(m)[..cut])
    ensures OptionToSeq(ParseBestBidAsk(EncodeBody(m)[..cut], now))
            == if cut < 51 then [] else Meaning(SymbolCut(m, cut - 51), now)
  {
    if cut >= 51 {
      QuoteFields(m, cut);
      AtRoot(EncodeBody(m)[..cut], m.root);
      CutString(EncodeBody(m), cut, 50, m.symbol);
      DecimalIsScaled(m.bidPrice, m.root.priceExp);
      DecimalIsScaled(m.bidQty, m.root.qtyExp);
      DecimalIsScaled(m.askPrice, m.root.priceExp);
      DecimalIsScaled(m.askQty, m.root.qtyExp);
    }
  }

  /** Where the symbol of a trades body begins. */
  function TradesSymbolAt(m: SbeMsg): nat
    requires m.TradeGroup?
  {
    EntryAt(TRADES_START, m.block, |m.entries|)
  }

  lemma EntryOfCut(m: SbeMsg, cut: nat, i: nat, symbol: SymbolBuf, now: u64)
    requires m.TradeGroup? && WellFormed(m) && TradesSymbolAt(m) <= cut <= |EncodeBody(m)| && i < |m.entries|
    ensures var body, offset := EncodeBody(m)[..cut], EntryAt(TRADES_START, m.block, i);
            && |body| >= TRADES_START && offset + 25 <= |body| && ExponentsInTable(body)
            && TradeAt(body, offset, symbol, now) == TradeOf(m.root, m.entries[i], symbol, now)
  {
    var full, offset := EncodeBody(m), EntryAt(TRADES_START, m.block, i);
    assert full[0..|full|] == full;
    TradeGroupLies(m, full);
    AtBlock(full, TRADES_START, Entries(m.entries), m.block, i);
    TimesMonotone(m.block, i, |m.entries|);
    AtPrefix(full, cut, 0, EncodeRoot(m.root));
    AtPrefix(full, cut, offset, EncodeEntry(m.entries[i]));
    AtEntry(full[..cut], offset, m.root, m.entries[i], symbol, now);
  }

  lemma CutTradesHeader(m: SbeMsg, cut: nat)
    requires m.TradeGroup? && WellFormed(m) && TRADES_START <= cut <= |EncodeBody(m)|
    ensures var body := EncodeBody(m)[..cut];
            TradeBlock(body) == m.block && TradeCount(body) == |m.entries| && TradesEnd(body) == TradesSymbolAt(m)
    ensures At(EncodeBody(m), TradesSymbolAt(m), EncodeString(m.symbol))
  {
    var full := EncodeBody(m);
    assert full[0..|full|] == full;
    TradeGroupLies(m, full);
    var body := full[..cut];
    assert body[18..20] == full[18..20] && body[20..24] == full[20..24];
  }

  lemma CutTradesAre(m: SbeMsg, cut: nat, left: SbeMsg, now: u64)
    requires m.TradeGroup? && WellFormed(m) && TradesSymbolAt(m) <= cut <= |EncodeBody(m)|
    requires left.TradeGroup? && WellFormed(left) && left.root == m.root && left.entries == m.entries
    requires var body := EncodeBody(m)[..cut];
             && TradesReadable(body) && GroupFits(body)
             && TradeBlock(body) == m.block && TradeCount(body) == |m.entries|
             && SymbolOf(left) == SymbolAt(body, TradesEnd(body))
    ensures TradesIn(EncodeBody(m)[..cut], now) == Meaning(left, now)
  {
    forall i: nat | i < |m.entries|
      ensures TradesIn(EncodeBody(m)[..cut], now)[i] == Meaning(left, now)[i]
    {
      EntryOfCut(m, cut, i, SymbolOf(left), now);
      EntryIsTrade(EncodeBody(m)[..cut], now, i);
    }
  }

  /** Trades that are cut off before their symbol give nothing, and otherwise all of them. */
  lemma CutTrades(m: SbeMsg, cut: nat, now: u64)
    requires m.TradeGroup? && WellFormed(m) && cut <= |EncodeBody(m)|
    ensures TradesReadable(EncodeBody(m)[..cut])
    ensures TradesIn(EncodeBody(m)[..cut], now)
            == if cut < TradesSymbolAt(m) then []
               else Meaning(SymbolCut(m, Max(0, cut - TradesSymbolAt(m) - 1)), now)
  {
    CutTradesReadable(m, cut);
    if cut >= TRADES_START {
      CutTradesHeader(m, cut);
      if cut >= TradesSymbolAt(m) {
        CutString(EncodeBody(m), cut, TradesSymbolAt(m), m.symbol);
        CutTradesAre(m, cut, SymbolCut(m, Max(0, cut - TradesSymbolAt(m) - 1)), now);
      }
    }
  }

  lemma LevelOfCut(full: seq<byte>, cut: nat, r: Root, start: nat, block: u16, levels: seq<Level>, i: nat)
    requires At(full, 0, EncodeRoot(r)) && InTable(r.priceExp) && InTable(r.qtyExp)
    requires LevelsFill(block, levels) && At(full, start, Flatten(Levels(levels))) && i < |levels|
    requires ROOT_SIZE <= cut <= |full| && EntryAt(start, block, i + 1) <= cut
    ensures var body, offset := full[..cut], EntryAt(start, block, i);
            && offset + 16 <= |body| && ExponentsInTable(body)
            && PriceAt(body, offset) == Decimal(levels[i].price, r.priceExp)
            && VolAt(body, offset) == Decimal(levels[i].qty, r.qtyExp)
  {
    AtBlock(full, start, Levels(levels), block, i);
    AtPrefix(full, cut, 0, EncodeRoot(r));
    AtPrefix(full, cut, EntryAt(start, block, i), EncodeLevel(levels[i]));
    AtLevel(full[..cut], EntryAt(start, block, i), r, levels[i]);
  }

  /** A group of which what is read ends within the cut is read as it is. */
  lemma GroupOfCut(full: seq<byte>, cut: nat, r: Root, start: nat, block: u16, levels: seq<Level>)
    requires At(full, 0, EncodeRoot(r)) && InTable(r.priceExp) && InTable(r.qtyExp)
    requires LevelsFill(block, levels) && At(full, start, Flatten(Levels(levels)))
    requires ROOT_SIZE <= cut <= |full| && start <= cut && EntryAt(start, block, Min(|levels|, MAX_LEVELS)) <= cut
    ensures LevelsReadable(full[..cut], start, block, Min(|levels|, MAX_LEVELS))
    ensures SideIn(full[..cut], start, block, |levels|) == SideOf(r, levels)
    ensures SideEnd(cut, start, block, |levels|) == EntryAt(start, block, |levels|)
  {
    var k := Min(|levels|, MAX_LEVELS);
    AllLevelsRead(cut, start, block, k);
    GroupEndIs(cut, start, block, |levels|);
    forall i: nat | i < k
      ensures EntryAt(start, block, i) + 16 <= cut && ExponentsInTable(full[..cut])
      ensures PriceAt(full[..cut], EntryAt(start, block, i)) == Decimal(levels[i].price, r.priceExp)
      ensures VolAt(full[..cut], EntryAt(start, block, i)) == Decimal(levels[i].qty, r.qtyExp)
    {
      if i + 1 < k {
        TimesMonotone(block, i + 1, k);
      }
      LevelOfCut(full, cut, r, start, block, levels, i);
    }
  }

  /** Where the asks header and the symbol of a depth body are. */
  function AsksHeaderAt(m: SbeMsg): nat
    requires m.DepthGroups?
  {
    EntryAt(BIDS_START, m.bidBlock, |m.bids|)
  }

  function DepthSymbolAt(m: SbeMsg): nat
    requires m.DepthGroups?
  {
    EntryAt(AsksHeaderAt(m) + DEPTH_GROUP_HEADER_SIZE, m.askBlock, |m.asks|)
  }

  lemma LevelsLength(block: u16, levels: seq<Level>)
    requires LevelsFill(block, levels)
    ensures |EncodeLevels(block, levels)| == DEPTH_GROUP_HEADER_SIZE + Times(block, |levels|)
  {
    FlattenLength(Levels(levels), block);
  }

  lemma DepthLies(m: SbeMsg)
    requires m.DepthGroups? && WellFormed(m)
    ensures var full := EncodeBody(m);
            && At(full, 0, EncodeRoot(m.root))
            && At(full, BIDS_START, Flatten(Levels(m.bids)))
            && At(full, AsksHeaderAt(m) + DEPTH_GROUP_HEADER_SIZE, Flatten(Levels(m.asks)))
            && At(full, DepthSymbolAt(m), EncodeString(m.symbol))
  {
    var full := EncodeBody(m);
    assert full[0..|full|] == full;
    DepthGroupsLie(m, full);
    LevelsLength(m.bidBlock, m.bids);
    LevelsLength(m.askBlock, m.asks);
    LevelsBehindHeader(full, ROOT_SIZE, m.bidBlock, m.bids);
    LevelsBehindHeader(full, AsksHeaderAt(m), m.askBlock, m.asks);
  }

  lemma LevelsBehindHeader(full: seq<byte>, at: nat, block: u16, levels: seq<Level>)
    requires |levels| < 0x1_0000 && At(full, at, EncodeLevels(block, levels))
    ensures At(full, at + DEPTH_GROUP_HEADER_SIZE, Flatten(Levels(levels)))
  {
    AtLevels(full, at, block, levels);
  }

  /** The bids that are read end within the cut. */
  predicate BidsUncut(m: SbeMsg, cut: nat)
    requires m.DepthGroups?
  {
    BIDS_START <= cut && EntryAt(BIDS_START, m.bidBlock, Min(|m.bids|, MAX_LEVELS)) <= cut
  }

  lemma BidsOfCut(m: SbeMsg, cut: nat)
    requires m.DepthGroups? && WellFormed(m) && cut <= |EncodeBody(m)| && BidsUncut(m, cut)
    ensures var body := EncodeBody(m)[..cut];
            && BidsReadable(body) && BidsIn(body) == SideOf(m.root, m.bids) && AsksAt(body) == AsksHeaderAt(m)
            && FirstField(body) == m.root.first && SecondField(body) == m.root.second
  {
    DepthLies(m);
    CutDepthHeaders(m, cut);
    GroupOfCut(EncodeBody(m), cut, m.root, BIDS_START, m.bidBlock, m.bids);
    AtPrefix(EncodeBody(m), cut, 0, EncodeRoot(m.root));
    AtRoot(EncodeBody(m)[..cut], m.root);
  }

  /** Depth that is cut off between its bids and its asks gives the bids alone, under no symbol. */
  lemma CutBeforeAsks(m: SbeMsg, cut: nat, now: u64)
    requires m.DepthGroups? && WellFormed(m) && cut <= |EncodeBody(m)|
    requires BidsUncut(m, cut) && cut < AsksHeaderAt(m) + 4
    ensures DepthReadable(EncodeBody(m)[..cut])
    ensures OptionToSeq(DepthIn(EncodeBody(m)[..cut], now))
            == Meaning(DepthGroups(m.root, m.bidBlock, m.bids, m.askBlock, [], []), now)
  {
    BidsOfCut(m, cut);
    assert SymbolToBytes([]) == Zeros(SYMBOL_LEN);
    NoLevels(m.root);
  }

  lemma NoLevels(r: Root)
    ensures SideOf(r, []) == NO_SIDE
  {
  }

  lemma GroupAt(body: seq<byte>, at: nat, block: u16, num: u16, side: Side, end: nat)
    requires at + DEPTH_GROUP_HEADER_SIZE <= |body| && ReadU16Le(body, at) == block && ReadU16Le(body, at + 2) == num
    requires LevelsReadable(body, at + DEPTH_GROUP_HEADER_SIZE, block, Min(num, MAX_LEVELS))
    requires side == SideIn(body, at + DEPTH_GROUP_HEADER_SIZE, block, num)
    requires end == SideEnd(|body|, at + DEPTH_GROUP_HEADER_SIZE, block, num)
    ensures GroupReadable(body, at) && GroupIn(body, at) == side && GroupEnd(body, at) == end
  {
  }

  lemma AsksOfCut(m: SbeMsg, cut: nat)
    requires m.DepthGroups? && WellFormed(m) && cut <= |EncodeBody(m)| && AsksHeaderAt(m) + 4 <= cut
    requires EntryAt(AsksHeaderAt(m) + 4, m.askBlock, Min(|m.asks|, MAX_LEVELS)) <= cut
    ensures var body := EncodeBody(m)[..cut];
            && GroupReadable(body, AsksHeaderAt(m)) && GroupIn(body, AsksHeaderAt(m)) == SideOf(m.root, m.asks)
            && GroupEnd(body, AsksHeaderAt(m)) == DepthSymbolAt(m)
  {
    DepthLies(m);
    AsksHeaderOfCut(m, cut);
    GroupOfCut(EncodeBody(m), cut, m.root, AsksHeaderAt(m) + 4, m.askBlock, m.asks);
    GroupAt(EncodeBody(m)[..cut], AsksHeaderAt(m), m.askBlock, |m.asks|, SideOf(m.root, m.asks), DepthSymbolAt(m));
  }

  /** Depth that is cut off behind the asks that are read gives both sides, under what is left of the symbol. */
  lemma CutBehindAsks(m: SbeMsg, cut: nat, now: u64)
    requires m.DepthGroups? && WellFormed(m) && cut <= |EncodeBody(m)|
    requires BidsUncut(m, cut) && AsksHeaderAt(m) + 4 <= cut
    requires EntryAt(AsksHeaderAt(m) + 4, m.askBlock, Min(|m.asks|, MAX_LEVELS)) <= cut
    ensures DepthReadable(EncodeBody(m)[..cut])
    ensures OptionToSeq(DepthIn(EncodeBody(m)[..cut], now))
            == Meaning(SymbolCut(m, Max(0, cut - DepthSymbolAt(m) - 1)), now)
  {
    BidsOfCut(m, cut);
    AsksOfCut(m, cut);
    DepthLies(m);
    CutString(EncodeBody(m), cut, DepthSymbolAt(m), m.symbol);
  }

  // ---------------------------------------------------------------------------
  // Whole frames
  // ---------------------------------------------------------------------------

  lemma CutFrame(m: SbeMsg, rootLength: u16, schema: u16, version: u16, cut: nat)
    requires WellFormed(m) && SBE_HEADER_SIZE <= cut <= |Encode(m, rootLength, schema, version)|
    ensures var frame := Encode(m, rootLength, schema, version);
            && |frame| == SBE_HEADER_SIZE + |EncodeBody(m)|
            && ReadU16Le(frame[..cut], 2) == Template(m)
            && frame[..cut][SBE_HEADER_SIZE..] == EncodeBody(m)[..cut - SBE_HEADER_SIZE]
  {
    var frame := Encode(m, rootLength, schema, version);
    assert frame[0..|frame|] == frame;
    AtHeader(frame, m, rootLength, schema, version);
    U16OfPrefix(frame, cut, 2);
    assert frame[SBE_HEADER_SIZE..] == EncodeBody(m);
  }

  /** A well-formed frame that is cut off anywhere is read without a panic if and only if it is not a depth
      frame cut unsafely. */
  lemma CutIsReadable(m: SbeMsg, rootLength: u16, schema: u16, version: u16, cut: nat)
    requires WellFormed(m) && cut <= |Encode(m, rootLength, schema, version)|
    ensures MessageReadable(Encode(m, rootLength, schema, version)[..cut]) <==>
            (m.DepthGroups? && cut >= SBE_HEADER_SIZE + BIDS_START ==>
               DepthCutIsSafe(m.bidBlock, m.bids, cut - SBE_HEADER_SIZE))
  {
    if cut >= SBE_HEADER_SIZE {
      CutFrame(m, rootLength, schema, version, cut);
      var at := cut - SBE_HEADER_SIZE;
      match m {
        case BestBidAsk(_, _, _, _, _, _) =>
          if at >= BBA_MIN_BODY { CutRoot(m, at); }
        case TradeGroup(_, _, _, _) => CutTradesReadable(m, at);
        case DepthGroups(_, _, _, _, _, _) => CutDepthReadable(m, at);
      }
    }
  }

  /** Two bids, the second at a price whose bytes read as a group of one level without length. */
  const TWO_BIDS: SbeMsg := DepthGroups(Root(0, 0, 0, 0), 16, [Level(0, 0, []), Level(0x1_0000, 0, [])], 16, [], [])

  lemma TwoBidsAreCut()
    ensures WholeBids(16, 2, 46) == 1 && EntryAt(BIDS_START, 16, 1) == 38
    ensures FirstHalf(0x1_0000) == 0 && SecondHalf(0x1_0000) == 1 && !LevelFits(46, 42, 0, 0)
    ensures !DepthCutIsSafe(16, TWO_BIDS.bids, 46)
  {
    assert !LevelsFit(46, 42, 0, 1) by {
      assert !LevelFits(46, 42, 0, 0);
    }
  }

  /** Cut in the middle of the second bid, it makes the parser read sixteen bytes where four are left. */
  lemma CutThatPanics()
    ensures WellFormed(TWO_BIDS) && 46 <= |EncodeBody(TWO_BIDS)| && !DepthReadable(EncodeBody(TWO_BIDS)[..46])
  {
    var m := TWO_BIDS;
    var full := EncodeBody(m);
    assert full[0..|full|] == full;
    DepthGroupsLie(m, full);
    FlattenLength(Levels(m.bids), 16);
    TimesIsProduct(16, 2);
    CutDepthReadable(m, 46);
    TwoBidsAreCut();
  }
}
