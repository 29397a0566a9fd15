/** The ask side against the unbounded map of everything quoted, in terms of asks. */
module AskTruth {
  import opened MarketData
  import opened BookSide
  import opened BookTruth
  import opened BookAsks
  import opened OrderBook

  /** The unbounded map after a run of messages: a snapshot replaces it, a zero volume removes a price. */
  function QuotedDelta(truth: map<real, real>, ls: seq<Level>): map<real, real>
    decreases |ls|
  {
    if ls == [] then truth else QuotedDelta(TruthStep(truth, ls[0]), ls[1..])
  }

  function QuotedAsks(truth: map<real, real>, msgs: seq<BookMsg>): map<real, real>
    decreases |msgs|
  {
    if msgs == [] then truth
    else QuotedAsks(if msgs[0].snapshot then Quotes(msgs[0].asks) else QuotedDelta(truth, msgs[0].asks), msgs[1..])
  }

  /** The same map with every price negated. */
  predicate Negates(truth: map<real, real>, mirrored: map<real, real>) {
    && (forall p | p in truth :: Neg(p) in mirrored && mirrored[Neg(p)] == truth[p])
    && (forall p | p in mirrored :: Neg(p) in truth)
  }

  lemma StepNegates(truth: map<real, real>, mirrored: map<real, real>, l: Level)
    requires Negates(truth, mirrored)
    ensures Negates(TruthStep(truth, l), TruthStep(mirrored, MirrorLevel(l)))
  {
  }

  lemma QuoteNegates(truth: map<real, real>, mirrored: map<real, real>, p: real, v: real)
    requires Negates(truth, mirrored)
    ensures Negates(truth[p := v], mirrored[Neg(p) := v])
  {
  }

  lemma {:induction false} QuotesNegate(ls: seq<Level>)
    ensures Negates(Quotes(ls), Quotes(Mirror(ls)))
  {
    if ls != [] {
      QuotesNegate(ls[1..]);
      QuoteNegates(Quotes(ls[1..]), Quotes(Mirror(ls[1..])), ls[0].price, ls[0].vol);
      assert Mirror(ls)[1..] == Mirror(ls[1..]);
    }
  }

  lemma {:induction false} DeltaNegates(t: Track, truth: map<real, real>, ls: seq<Level>, n: nat)
    requires Negates(truth, t.truth)
    ensures Negates(QuotedDelta(truth, ls), TrackDelta(t, Mirror(ls), n).truth)
    decreases |ls|
  {
    if ls != [] {
      StepNegates(truth, t.truth, ls[0]);
      DeltaNegates(TrackUpdate(t, Mirror(ls)[0], n), TruthStep(truth, ls[0]), ls[1..], n);
      assert Mirror(ls)[1..] == Mirror(ls[1..]);
    }
  }

  lemma {:induction false} RunNegates(t: Track, truth: map<real, real>, msgs: seq<BookMsg>, n: nat)
    requires Negates(truth, t.truth)
    ensures Negates(QuotedAsks(truth, msgs), TrackRun(t, AskMsgs(msgs), n).truth)
    decreases |msgs|
  {
    if msgs != [] {
      var m := msgs[0];
      if m.snapshot {
        QuotesNegate(m.asks);
        RunNegates(TrackMsg(t, AskMsg(m), n), Quotes(m.asks), msgs[1..], n);
      } else {
        DeltaNegates(t, truth, m.asks, n);
        RunNegates(TrackMsg(t, AskMsg(m), n), QuotedDelta(truth, m.asks), msgs[1..], n);
      }
      assert AskMsgs(msgs)[1..] == AskMsgs(msgs[1..]);
    }
  }

  ghost predicate AskAccepted(m: BookMsg, grid: iset<real>) {
    && OnGrid(m.asks, grid)
    && if m.snapshot then Separated(m.asks) && PositiveVolumes(m.asks) else NonNegativeVolumes(m.asks)
  }

  lemma AskAcceptedMirrors(msgs: seq<BookMsg>, grid: iset<real>)
    requires Gridded(grid) && forall m | m in msgs :: AskAccepted(m, grid)
    ensures Gridded(MirrorGrid(grid)) && forall s | s in AskMsgs(msgs) :: Accepted(s, MirrorGrid(grid))
  {
    MirrorFeed([], grid);
    forall i | 0 <= i < |msgs|
      ensures Accepted(AskMsgs(msgs)[i], MirrorGrid(grid))
    {
      assert AskAccepted(msgs[i], grid);
      MirrorFeed(msgs[i].asks, grid);
    }
  }

  lemma TopIsHeld(top: seq<Level>, truth: map<real, real>, mirrored: map<real, real>)
    requires Negates(truth, mirrored) && HeldIsTrue(Mirror(top), mirrored)
    ensures HeldIsTrue(top, truth)
  {
    var ms := Mirror(top);
    forall i | 0 <= i < |top|
      ensures top[i].price in truth && truth[top[i].price] == top[i].vol
    {
      assert ms[i] == MirrorLevel(top[i]) && Neg(ms[i].price) == top[i].price;
    }
  }

  /** The lowest price pushed out of the ask side since the snapshot. */
  function AskFrontier(msgs: seq<BookMsg>, n: nat): Option<real> {
    NegOption(TrackRun(EMPTY_TRACK, AskMsgs(msgs), n).frontier)
  }

  function NegOption(f: Option<real>): Option<real> {
    match f
    case None => None
    case Some(p) => Some(Neg(p))
  }

  /** The asks and the map agree below the frontier, and every held ask is in the map. */
  predicate AsksAgree(asks: seq<Level>, truth: map<real, real>, f: Option<real>) {
    && HeldIsTrue(asks, truth)
    && forall p | p in truth && (f.None? || p < f.value) :: Level(p, truth[p]) in asks
  }

  lemma AskIsHeld(asks: seq<Level>, truth: map<real, real>, mirrored: map<real, real>, f: Option<real>, p: real)
    requires Negates(truth, mirrored) && TrueIsHeld(Mirror(asks), mirrored, f)
    requires p in truth && Above(Neg(p), f)
    ensures Level(p, truth[p]) in asks
  {
    assert Level(Neg(p), mirrored[Neg(p)]) in Mirror(asks);
    MirrorMember(asks, Level(Neg(p), truth[p]));
  }

  lemma AgreementMirrors(asks: seq<Level>, truth: map<real, real>, mirrored: map<real, real>, f: Option<real>)
    requires Negates(truth, mirrored)
    requires HeldIsTrue(Mirror(asks), mirrored) && TrueIsHeld(Mirror(asks), mirrored, f)
    ensures AsksAgree(asks, truth, NegOption(f))
  {
    TopIsHeld(asks, truth, mirrored);
    forall p | p in truth && Above(Neg(p), f)
      ensures Level(p, truth[p]) in asks
    {
      AskIsHeld(asks, truth, mirrored, f, p);
    }
  }

  /** The asks and their map are the mirror image of a bid side and its map. */
  lemma AsksMirrorRun(msgs: seq<BookMsg>, n: nat)
    ensures Mirror(BookRun(NO_SIDES, msgs, n).asks) == SideRun([], AskMsgs(msgs), n)
    ensures Negates(QuotedAsks(map[], msgs), TrackRun(EMPTY_TRACK, AskMsgs(msgs), n).truth)
  {
    SidesOfRun(NO_SIDES, msgs, n);
    assert Mirror([]) == [];
    RunNegates(EMPTY_TRACK, map[], msgs, n);
  }

  /** After any run the asks and the unbounded map have the same prices with the same volumes strictly below the
      frontier, every held ask is in the map, and while nothing has been pushed out all of the map is held. */
  lemma AsksAgreeBeyondFrontier(msgs: seq<BookMsg>, grid: iset<real>, n: nat)
    requires Gridded(grid) && forall m | m in msgs :: AskAccepted(m, grid)
    ensures AsksAgree(BookRun(NO_SIDES, msgs, n).asks, QuotedAsks(map[], msgs), AskFrontier(msgs, n))
  {
    var t := TrackRun(EMPTY_TRACK, AskMsgs(msgs), n);
    AskAcceptedMirrors(msgs, grid);
    RunAgrees(EMPTY_TRACK, AskMsgs(msgs), MirrorGrid(grid), n);
    TrackRunFollows(EMPTY_TRACK, AskMsgs(msgs), n);
    AsksMirrorRun(msgs, n);
    AgreementMirrors(BookRun(NO_SIDES, msgs, n).asks, QuotedAsks(map[], msgs), t.truth, t.frontier);
  }

  /** No price of the map but those of `top` lies below one of `top`. */
  predicate OthersHigher(top: seq<Level>, truth: map<real, real>) {
    forall p | p in truth && (forall i | 0 <= i < |top| :: top[i].price != p) ::
      forall i | 0 <= i < |top| :: top[i].price < p
  }

  /** `top` is the `k` lowest quotes of the map, lowest first, or all of them when there are fewer. */
  ghost predicate IsLowest(top: seq<Level>, truth: map<real, real>, k: nat) {
    && |top| == (if |truth| <= k then |truth| else k)
    && (forall i, j | 0 <= i < j < |top| :: top[i].price < top[j].price)
    && HeldIsTrue(top, truth) && OthersHigher(top, truth)
  }

  lemma SameSize(truth: map<real, real>, mirrored: map<real, real>)
    requires Negates(truth, mirrored)
    ensures |truth| == |mirrored|
  {
    forall p
      ensures p in mirrored.Keys <==> p in Negated(truth.Keys)
    {
      assert Neg(Neg(p)) == p;
      assert p in mirrored ==> Neg(p) in truth.Keys;
    }
    assert mirrored.Keys == Negated(truth.Keys);
    NegatedSize(truth.Keys);
    assert |truth| == |truth.Keys| && |mirrored| == |mirrored.Keys|;
  }

  lemma OtherIsHigher(top: seq<Level>, truth: map<real, real>, mirrored: map<real, real>, k: nat, p: real, i: nat)
    requires Negates(truth, mirrored) && IsTop(Mirror(top), mirrored, k)
    requires p in truth && i < |top| && forall j | 0 <= j < |top| :: top[j].price != p
    ensures top[i].price < p
  {
    var ms := Mirror(top);
    forall j | 0 <= j < |ms|
      ensures ms[j].price != Neg(p)
    {
      assert ms[j] == MirrorLevel(top[j]);
    }
    assert ms[i].price > Neg(p);
  }

  lemma SpacedAscends(top: seq<Level>)
    requires Spaced(Mirror(top))
    ensures forall i, j | 0 <= i < j < |top| :: top[i].price < top[j].price
  {
    var ms := Mirror(top);
    forall i, j | 0 <= i < j < |top|
      ensures top[i].price < top[j].price
    {
      assert ms[i].price > ms[j].price;
    }
  }

  lemma HighestMirrorsLowest(top: seq<Level>, truth: map<real, real>, mirrored: map<real, real>, k: nat)
    requires Negates(truth, mirrored) && IsTop(Mirror(top), mirrored, k)
    ensures IsLowest(top, truth, k)
  {
    SameSize(truth, mirrored);
    TopIsHeld(top, truth, mirrored);
    SpacedAscends(top);
    assert OthersHigher(top, truth) by {
      forall p, i: nat | p in truth && (forall j | 0 <= j < |top| :: top[j].price != p) && i < |top|
        ensures top[i].price < p
      {
        OtherIsHigher(top, truth, mirrored, k, p, i);
      }
    }
  }

  lemma MirrorTopOf(levels: seq<Level>, k: nat)
    ensures Mirror(Top(levels, k)) == Top(Mirror(levels), k)
  {
  }

  /** Snapshots that are longer than the book list their lowest asks first. */
  predicate LowestFirst(msgs: seq<BookMsg>, n: nat) {
    forall m, i, j | m in msgs && m.snapshot && 0 <= i < n <= j < |m.asks| :: m.asks[i].price < m.asks[j].price
  }

  lemma LowestFirstMirrors(msgs: seq<BookMsg>, n: nat)
    requires LowestFirst(msgs, n)
    ensures forall s | s in AskMsgs(msgs) && s.Snapshot? :: KeepsBest(s.levels, n)
  {
    forall s | s in AskMsgs(msgs) && s.Snapshot?
      ensures KeepsBest(s.levels, n)
    {
      var i :| 0 <= i < |msgs| && AskMsgs(msgs)[i] == s;
      MirrorKeepsBest(msgs[i].asks, n);
    }
  }

  /** While `r + k <= n` the first `k` asks are the `k` lowest of the map, `r` the removals since the snapshot. */
  lemma LowestAsksAreTrue(msgs: seq<BookMsg>, grid: iset<real>, n: nat, k: nat)
    requires Gridded(grid) && forall m | m in msgs :: AskAccepted(m, grid)
    requires LowestFirst(msgs, n)
    requires TrackRun(EMPTY_TRACK, AskMsgs(msgs), n).removals + k <= n
    ensures IsLowest(Top(BookRun(NO_SIDES, msgs, n).asks, k), QuotedAsks(map[], msgs), k)
  {
    var asks := BookRun(NO_SIDES, msgs, n).asks;
    AskAcceptedMirrors(msgs, grid);
    LowestFirstMirrors(msgs, n);
    TopIsTrue(AskMsgs(msgs), MirrorGrid(grid), n, k);
    AsksMirrorRun(msgs, n);
    MirrorTopOf(asks, k);
    HighestMirrorsLowest(Top(asks, k), QuotedAsks(map[], msgs), TrackRun(EMPTY_TRACK, AskMsgs(msgs), n).truth, k);
  }
}
