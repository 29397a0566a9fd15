/** The incremental order book with both sides, edited in place by snapshots and deltas. */
module OrderBook {
  import opened BookSide
  import opened BookTruth
  import opened MarketData

  datatype BookMsg = BookMsg(snapshot: bool, bids: seq<Level>, asks: seq<Level>)

  datatype Sides = Sides(bids: seq<Level>, asks: seq<Level>)

  const NO_SIDES: Sides := Sides([], [])

  function BookStep(b: Sides, m: BookMsg, n: nat): Sides {
    if m.snapshot then Sides(SnapshotDesc(m.bids, n), SnapshotAsc(m.asks, n))
    else Sides(DeltaDesc(b.bids, m.bids, n), DeltaAsc(b.asks, m.asks, n))
  }

  function BookRun(b: Sides, msgs: seq<BookMsg>, n: nat): Sides
    decreases |msgs|
  {
    if msgs == [] then b else BookRun(BookStep(b, msgs[0], n), msgs[1..], n)
  }

  /** Five-slot arrays with the best levels first and zeros behind them, and the level counts. */
  datatype BookTop = BookTop(bidPrices: Five, bidVols: Five, askPrices: Five, askVols: Five, bidLevel: nat,
                             askLevel: nat)

  function FivePrices(levels: seq<Level>): Five {
    seq(5, i requires 0 <= i => if i < |levels| then levels[i].price else 0.0)
  }

  function FiveVols(levels: seq<Level>): Five {
    seq(5, i requires 0 <= i => if i < |levels| then levels[i].vol else 0.0)
  }

  function BookTopOf(b: Sides): BookTop {
    BookTop(FivePrices(b.bids), FiveVols(b.bids), FivePrices(b.asks), FiveVols(b.asks),
            |Top(b.bids, 5)|, |Top(b.asks, 5)|)
  }

  class OrderBook {
    const n: nat
    var bids: seq<Level>
    var asks: seq<Level>

    function Contents(): Sides
      reads this
    {
      Sides(bids, asks)
    }

    constructor (n: nat)
      ensures this.n == n && Contents() == NO_SIDES
    {
      this.n := n;
      bids, asks := [], [];
    }

    method SetSnapshot(newBids: seq<Level>, newAsks: seq<Level>)
      modifies this
      ensures bids == SnapshotDesc(newBids, n) && asks == SnapshotAsc(newAsks, n)
    {
      bids := [];
      bids := bids + newBids[..if |newBids| <= n then |newBids| else n];
      assert bids == if |newBids| <= n then newBids else newBids[..n];
      bids := SortDesc(bids);
      asks := [];
      asks := asks + newAsks[..if |newAsks| <= n then |newAsks| else n];
      assert asks == if |newAsks| <= n then newAsks else newAsks[..n];
      asks := SortAsc(asks);
    }

    /** A snapshot replaces both sides, a delta edits them. */
    method Apply(m: BookMsg)
      modifies this
      ensures Contents() == BookStep(old(Contents()), m, n)
    {
      if m.snapshot {
        SetSnapshot(m.bids, m.asks);
      } else {
        Update(m.bids, m.asks);
      }
    }

    method Update(deltaBids: seq<Level>, deltaAsks: seq<Level>)
      modifies this
      ensures bids == DeltaDesc(old(bids), deltaBids, n)
      ensures asks == DeltaAsc(old(asks), deltaAsks, n)
    {
      for i := 0 to |deltaBids|
        invariant DeltaDesc(bids, deltaBids[i..], n) == DeltaDesc(old(bids), deltaBids, n)
        invariant asks == old(asks)
      {
        assert deltaBids[i..][0] == deltaBids[i] && deltaBids[i..][1..] == deltaBids[i + 1..];
        bids := UpdateSideDesc(bids, deltaBids[i].price, deltaBids[i].vol, n);
      }
      for i := 0 to |deltaAsks|
        invariant DeltaAsc(asks, deltaAsks[i..], n) == DeltaAsc(old(asks), deltaAsks, n)
        invariant bids == DeltaDesc(old(bids), deltaBids, n)
      {
        assert deltaAsks[i..][0] == deltaAsks[i] && deltaAsks[i..][1..] == deltaAsks[i + 1..];
        asks := UpdateSideAsc(asks, deltaAsks[i].price, deltaAsks[i].vol, n);
      }
    }

    method GetDepth5() returns (top: BookTop)
      ensures top == BookTopOf(Contents())
    {
      var bidLevels := if |bids| <= 5 then |bids| else 5;
      var askLevels := if |asks| <= 5 then |asks| else 5;
      var bidPrices, bidVols := new real[5](_ => 0.0), new real[5](_ => 0.0);
      var askPrices, askVols := new real[5](_ => 0.0), new real[5](_ => 0.0);
      for i := 0 to bidLevels
        invariant forall k | 0 <= k < 5 :: bidPrices[k] == (if k < i then bids[k].price else 0.0)
        invariant forall k | 0 <= k < 5 :: bidVols[k] == (if k < i then bids[k].vol else 0.0)
        invariant fresh(bidPrices) && fresh(bidVols)
        invariant forall k | 0 <= k < 5 :: askPrices[k] == 0.0 && askVols[k] == 0.0
      {
        bidPrices[i] := bids[i].price;
        bidVols[i] := bids[i].vol;
      }
      for i := 0 to askLevels
        invariant forall k | 0 <= k < 5 :: askPrices[k] == (if k < i then asks[k].price else 0.0)
        invariant forall k | 0 <= k < 5 :: askVols[k] == (if k < i then asks[k].vol else 0.0)
        invariant bidPrices[..] == FivePrices(bids) && bidVols[..] == FiveVols(bids)
      {
        askPrices[i] := asks[i].price;
        askVols[i] := asks[i].vol;
      }
      assert askPrices[..] == FivePrices(asks) && askVols[..] == FiveVols(asks);
      top := BookTop(bidPrices[..], bidVols[..], askPrices[..], askVols[..], bidLevels, askLevels);
    }
  }

  /** `iter().position(..)`: the first level near a price, below it, or above it; the length when there is none. */
  method PositionNear(levels: seq<Level>, price: real) returns (i: nat)
    ensures i == FindLevel(levels, price)
    ensures i < |levels| ==> -0.0000000001 < levels[i].price - price < 0.0000000001
    ensures forall k | 0 <= k < i :: !(-0.0000000001 < levels[k].price - price < 0.0000000001)
  {
    i := 0;
    while i < |levels| && !Near(levels[i].price, price)
      invariant i <= |levels| && forall k | 0 <= k < i :: !Near(levels[k].price, price)
    {
      i := i + 1;
    }
  }

  method PositionBelow(levels: seq<Level>, price: real) returns (i: nat)
    ensures i == InsertPosDesc(levels, price)
    ensures (i < |levels| ==> levels[i].price < price) && forall k | 0 <= k < i :: levels[k].price >= price
  {
    i := 0;
    while i < |levels| && levels[i].price >= price
      invariant i <= |levels| && forall k | 0 <= k < i :: levels[k].price >= price
    {
      i := i + 1;
    }
  }

  method PositionAbove(levels: seq<Level>, price: real) returns (i: nat)
    ensures i == InsertPosAsc(levels, price)
    ensures (i < |levels| ==> levels[i].price > price) && forall k | 0 <= k < i :: levels[k].price <= price
  {
    i := 0;
    while i < |levels| && levels[i].price <= price
      invariant i <= |levels| && forall k | 0 <= k < i :: levels[k].price <= price
    {
      i := i + 1;
    }
  }

  method UpdateSideDesc(levels: seq<Level>, price: real, vol: real, maxLevels: nat) returns (r: seq<Level>)
    ensures r == UpdateDesc(levels, Level(price, vol), maxLevels)
  {
    r := levels;
    var idx := PositionNear(r, price);
    if idx < |r| {
      if vol == 0.0 {
        r := r[..idx] + r[idx + 1..];
      } else {
        r := r[idx := Level(r[idx].price, vol)];
      }
    } else if vol > 0.0 {
      var pos := PositionBelow(r, price);
      r := r[..pos] + [Level(price, vol)] + r[pos..];
      assert r == Insert(levels, pos, Level(price, vol));
      if |r| > maxLevels {
        r := r[..|r| - 1];
      }
    }
  }

  method UpdateSideAsc(levels: seq<Level>, price: real, vol: real, maxLevels: nat) returns (r: seq<Level>)
    ensures r == UpdateAsc(levels, Level(price, vol), maxLevels)
  {
    r := levels;
    var idx := PositionNear(r, price);
    if idx < |r| {
      if vol == 0.0 {
        r := r[..idx] + r[idx + 1..];
      } else {
        r := r[idx := Level(r[idx].price, vol)];
      }
    } else if vol > 0.0 {
      var pos := PositionAbove(r, price);
      r := r[..pos] + [Level(price, vol)] + r[pos..];
      assert r == Insert(levels, pos, Level(price, vol));
      if |r| > maxLevels {
        r := r[..|r| - 1];
      }
    }
  }

  // ---------------------------------------------------------------------------
  // Whole runs of the book
  // ---------------------------------------------------------------------------

  function BidMsg(m: BookMsg): SideMsg {
    if m.snapshot then Snapshot(m.bids) else Delta(m.bids)
  }

  /** What the mirrored ask side sees of a message. */
  function AskMsg(m: BookMsg): SideMsg {
    if m.snapshot then Snapshot(Mirror(m.asks)) else Delta(Mirror(m.asks))
  }

  function BidMsgs(msgs: seq<BookMsg>): (r: seq<SideMsg>)
    ensures |r| == |msgs| && forall i | 0 <= i < |r| :: r[i] == BidMsg(msgs[i])
  {
    seq(|msgs|, i requires 0 <= i < |msgs| => BidMsg(msgs[i]))
  }

  function AskMsgs(msgs: seq<BookMsg>): (r: seq<SideMsg>)
    ensures |r| == |msgs| && forall i | 0 <= i < |r| :: r[i] == AskMsg(msgs[i])
  {
    seq(|msgs|, i requires 0 <= i < |msgs| => AskMsg(msgs[i]))
  }

  /** The two sides run independently, and the ask side is the bid side under price negation. */
  lemma {:induction false} SidesOfRun(b: Sides, msgs: seq<BookMsg>, n: nat)
    ensures BookRun(b, msgs, n).bids == SideRun(b.bids, BidMsgs(msgs), n)
    ensures Mirror(BookRun(b, msgs, n).asks) == SideRun(Mirror(b.asks), AskMsgs(msgs), n)
    decreases |msgs|
  {
    if msgs != [] {
      var m := msgs[0];
      if m.snapshot {
        MirrorSnapshot(m.asks, n);
      } else {
        MirrorDelta(b.asks, m.asks, n);
      }
      SidesOfRun(BookStep(b, m, n), msgs[1..], n);
      assert BidMsgs(msgs)[1..] == BidMsgs(msgs[1..]) && AskMsgs(msgs)[1..] == AskMsgs(msgs[1..]);
    }
  }

  /** Every run of snapshots and deltas keeps bids strictly descending and asks strictly ascending,
      neighbours at least the tolerance apart, volumes positive and at most `n` levels a side. */
  lemma {:induction false} RunKeepsOrder(b: Sides, msgs: seq<BookMsg>, n: nat)
    requires WellKept(b.bids, n) && WellKept(Mirror(b.asks), n)
    requires forall m | m in msgs :: if m.snapshot
                                     then Separated(m.bids) && PositiveVolumes(m.bids)
                                          && Separated(m.asks) && PositiveVolumes(m.asks)
                                     else NonNegativeVolumes(m.bids) && NonNegativeVolumes(m.asks)
    ensures WellKept(BookRun(b, msgs, n).bids, n) && WellKept(Mirror(BookRun(b, msgs, n).asks), n)
    decreases |msgs|
  {
    if msgs != [] {
      var m := msgs[0];
      assert m in msgs;
      if m.snapshot {
        SnapshotOrders(m.bids, n);
        MirrorSnapshot(m.asks, n);
        SnapshotOrders(Mirror(m.asks), n);
      } else {
        DeltaKeepsOrder(b.bids, m.bids, n);
        MirrorDelta(b.asks, m.asks, n);
        DeltaKeepsOrder(Mirror(b.asks), Mirror(m.asks), n);
      }
      RunKeepsOrder(BookStep(b, m, n), msgs[1..], n);
    }
  }

  ghost predicate FeedAccepted(msgs: seq<SideMsg>, grid: iset<real>, n: nat) {
    && Gridded(grid)
    && forall m | m in msgs :: Accepted(m, grid) && (m.Snapshot? ==> KeepsBest(m.levels, n))
  }

  /** A record shows the best levels first and zeros behind them. */
  predicate Shows(top: BookTop, bids: seq<Level>, asks: seq<Level>) {
    && top.bidLevel == |bids| && top.askLevel == |asks|
    && (forall i | 0 <= i < 5 :: top.bidPrices[i] == if i < |bids| then bids[i].price else 0.0)
    && (forall i | 0 <= i < 5 :: top.askPrices[i] == if i < |asks| then asks[i].price else 0.0)
    && (forall i | 0 <= i < 5 :: top.bidVols[i] == if i < |bids| then bids[i].vol else 0.0)
    && (forall i | 0 <= i < 5 :: top.askVols[i] == if i < |asks| then asks[i].vol else 0.0)
  }

  lemma TopShows(b: Sides)
    ensures Shows(BookTopOf(b), Top(b.bids, 5), Top(b.asks, 5))
  {
  }

  /** While at most `n - 5` levels have been removed on each side since the last snapshot, the record
      that `get_depth5` returns holds the true five best quotes of both sides, best first. */
  lemma Depth5IsTrue(msgs: seq<BookMsg>, bidGrid: iset<real>, askGrid: iset<real>, n: nat)
    requires FeedAccepted(BidMsgs(msgs), bidGrid, n) && FeedAccepted(AskMsgs(msgs), askGrid, n)
    requires TrackRun(EMPTY_TRACK, BidMsgs(msgs), n).removals + 5 <= n
    requires TrackRun(EMPTY_TRACK, AskMsgs(msgs), n).removals + 5 <= n
    ensures var b := BookRun(NO_SIDES, msgs, n);
            var bids, asks := Top(b.bids, 5), Top(b.asks, 5);
            && Shows(BookTopOf(b), bids, asks)
            && IsTop(bids, TrackRun(EMPTY_TRACK, BidMsgs(msgs), n).truth, 5)
            && IsTop(Mirror(asks), TrackRun(EMPTY_TRACK, AskMsgs(msgs), n).truth, 5)
  {
    var b := BookRun(NO_SIDES, msgs, n);
    SidesOfRun(NO_SIDES, msgs, n);
    assert Mirror([]) == [];
    TopIsTrue(BidMsgs(msgs), bidGrid, n, 5);
    TopIsTrue(AskMsgs(msgs), askGrid, n, 5);
    MirrorTop(b.asks);
    TopShows(b);
  }

  lemma MirrorTop(levels: seq<Level>)
    ensures Mirror(Top(levels, 5)) == Top(Mirror(levels), 5)
  {
  }

  // ---------------------------------------------------------------------------
  // A snapshot forgets the past
  // ---------------------------------------------------------------------------

  /** Where the last snapshot among the first `n` messages is, or 0 when there is none. */
  function LastSnapshot(msgs: seq<BookMsg>, n: nat): (k: nat)
    requires n <= |msgs|
    ensures k <= n && (k == n ==> n == 0)
    ensures k == 0 || msgs[k].snapshot
    ensures forall i | k < i < n :: !msgs[i].snapshot
  {
    if n == 0 then 0 else if msgs[n - 1].snapshot then n - 1 else LastSnapshot(msgs, n - 1)
  }

  /** The messages from the last snapshot on, or all of them when there is none. */
  function SinceSnapshot(msgs: seq<BookMsg>): seq<BookMsg> {
    msgs[LastSnapshot(msgs, |msgs|)..]
  }

  lemma {:induction false} LastSnapshotBefore(msgs: seq<BookMsg>, m: BookMsg, n: nat)
    requires n <= |msgs|
    ensures LastSnapshot(msgs + [m], n) == LastSnapshot(msgs, n)
  {
    if n > 0 {
      assert (msgs + [m])[n - 1] == msgs[n - 1];
      LastSnapshotBefore(msgs, m, n - 1);
    }
  }

  lemma SinceSnapshotNext(msgs: seq<BookMsg>, m: BookMsg)
    ensures SinceSnapshot(msgs + [m]) == if m.snapshot then [m] else SinceSnapshot(msgs) + [m]
  {
    LastSnapshotBefore(msgs, m, |msgs|);
  }

  /** What a book shows depends on the messages since the last snapshot alone. */
  lemma SnapshotForgets(b: Sides, c: Sides, msgs: seq<BookMsg>, n: nat)
    requires b == c || exists i :: 0 <= i < |msgs| && msgs[i].snapshot
    ensures BookRun(b, msgs, n) == BookRun(c, SinceSnapshot(msgs), n)
  {
    var k := LastSnapshot(msgs, |msgs|);
    var before, since := msgs[..k], msgs[k..];
    assert msgs == before + since;
    BookRunConcat(b, before, since, n);
    if k < |msgs| && msgs[k].snapshot {
      assert since[0] == msgs[k];
      SnapshotFirst(BookRun(b, before, n), c, since, n);
    } else {
      assert k == 0 && before == [];
    }
  }

  lemma SnapshotFirst(b: Sides, c: Sides, msgs: seq<BookMsg>, n: nat)
    requires msgs != [] && msgs[0].snapshot
    ensures BookRun(b, msgs, n) == BookRun(c, msgs, n)
  {
  }

  lemma RunSnoc(b: Sides, msgs: seq<BookMsg>, m: BookMsg, n: nat)
    ensures BookRun(b, msgs + [m], n) == BookStep(BookRun(b, msgs, n), m, n)
  {
    BookRunConcat(b, msgs, [m], n);
    var c := BookRun(b, msgs, n);
    assert BookRun(c, [m], n) == BookRun(BookStep(c, m, n), [m][1..], n);
  }

  lemma {:induction false} BookRunConcat(b: Sides, x: seq<BookMsg>, y: seq<BookMsg>, n: nat)
    ensures BookRun(b, x + y, n) == BookRun(BookRun(b, x, n), y, n)
    decreases |x|
  {
    if x == [] {
      assert x + y == y;
    } else {
      assert (x + y)[1..] == x[1..] + y;
      BookRunConcat(BookStep(b, x[0], n), x[1..], y, n);
    }
  }
}
