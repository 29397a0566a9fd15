/** The bounded bid side against the unbounded map of everything the exchange has sent.

    A level that the size limit pushes out does not come back when others are removed later, so the
    book is not simply the best levels of the map. It agrees with the map strictly beyond a frontier,
    the best price ever pushed out since the snapshot. The ask side is the mirror image. */
module BookTruth {
  import opened BookSide
  import opened MarketData

  datatype SideMsg = Snapshot(levels: seq<Level>) | Delta(levels: seq<Level>)

  function SideStep(levels: seq<Level>, m: SideMsg, n: nat): seq<Level> {
    match m
    case Snapshot(ls) => SnapshotDesc(ls, n)
    case Delta(ls) => DeltaDesc(levels, ls, n)
  }

  /** The bid side after a run of messages. */
  function SideRun(levels: seq<Level>, msgs: seq<SideMsg>, n: nat): seq<Level>
    decreases |msgs|
  {
    if msgs == [] then levels else SideRun(SideStep(levels, msgs[0], n), msgs[1..], n)
  }

  /** The book, and beside it the unbounded map, the frontier and the number of levels removed
      since the last snapshot. */
  datatype Track = Track(levels: seq<Level>, truth: map<real, real>, frontier: Option<real>, removals: nat)

  const EMPTY_TRACK: Track := Track([], map[], None, 0)

  function TruthStep(truth: map<real, real>, l: Level): map<real, real> {
    if l.vol == 0.0 then truth - {l.price} else truth[l.price := l.vol]
  }

  function Further(f: Option<real>, p: real): Option<real> {
    if f.Some? && f.value >= p then f else Some(p)
  }

  function FrontierStep(f: Option<real>, levels: seq<Level>, l: Level, n: nat): Option<real> {
    if FindLevel(levels, l.price) == |levels| && l.vol > 0.0 && |levels| + 1 > n
    then Further(f, Insert(levels, InsertPosDesc(levels, l.price), l)[|levels|].price)
    else f
  }

  function TrackUpdate(t: Track, l: Level, n: nat): Track {
    Track(UpdateDesc(t.levels, l, n), TruthStep(t.truth, l), FrontierStep(t.frontier, t.levels, l, n),
          t.removals + if FindLevel(t.levels, l.price) < |t.levels| && l.vol == 0.0 then 1 else 0)
  }

  /** A removal is counted exactly when the book gets shorter. */
  lemma RemovalShortens(t: Track, l: Level, n: nat)
    ensures TrackUpdate(t, l, n).removals == t.removals + if |UpdateDesc(t.levels, l, n)| < |t.levels| then 1 else 0
  {
  }

  function TrackDelta(t: Track, ls: seq<Level>, n: nat): Track
    decreases |ls|
  {
    if ls == [] then t else TrackDelta(TrackUpdate(t, ls[0], n), ls[1..], n)
  }

  function Quotes(ls: seq<Level>): map<real, real> {
    if ls == [] then map[] else Quotes(ls[1..])[ls[0].price := ls[0].vol]
  }

  function Best(ls: seq<Level>): Option<real> {
    if ls == [] then None else Further(Best(ls[1..]), ls[0].price)
  }

  /** A snapshot replaces the map; what the size limit cuts off counts as pushed out. */
  function TrackSnapshot(ls: seq<Level>, n: nat): Track {
    Track(SnapshotDesc(ls, n), Quotes(ls), if |ls| <= n then None else Best(ls[n..]), 0)
  }

  function TrackMsg(t: Track, m: SideMsg, n: nat): Track {
    match m
    case Snapshot(ls) => TrackSnapshot(ls, n)
    case Delta(ls) => TrackDelta(t, ls, n)
  }

  function TrackRun(t: Track, msgs: seq<SideMsg>, n: nat): Track
    decreases |msgs|
  {
    if msgs == [] then t else TrackRun(TrackMsg(t, msgs[0], n), msgs[1..], n)
  }

  lemma {:induction false} TrackRunSnoc(t: Track, msgs: seq<SideMsg>, m: SideMsg, n: nat)
    ensures TrackRun(t, msgs + [m], n) == TrackMsg(TrackRun(t, msgs, n), m, n)
    decreases |msgs|
  {
    if msgs == [] {
      assert [] + [m] == [m] && [m][1..] == [];
    } else {
      assert (msgs + [m])[1..] == msgs[1..] + [m];
      TrackRunSnoc(TrackMsg(t, msgs[0], n), msgs[1..], m, n);
    }
  }

  /** Tracking does not disturb the book. */
  lemma {:induction false} TrackDeltaFollows(t: Track, ls: seq<Level>, n: nat)
    ensures TrackDelta(t, ls, n).levels == DeltaDesc(t.levels, ls, n)
    decreases |ls|
  {
    if ls != [] {
      TrackDeltaFollows(TrackUpdate(t, ls[0], n), ls[1..], n);
    }
  }

  lemma {:induction false} TrackRunFollows(t: Track, msgs: seq<SideMsg>, n: nat)
    ensures TrackRun(t, msgs, n).levels == SideRun(t.levels, msgs, n)
    decreases |msgs|
  {
    if msgs != [] {
      if msgs[0].Delta? {
        TrackDeltaFollows(t, msgs[0].levels, n);
      }
      TrackRunFollows(TrackMsg(t, msgs[0], n), msgs[1..], n);
    }
  }

  // ---------------------------------------------------------------------------
  // Agreement beyond the frontier
  // ---------------------------------------------------------------------------

  /** Feed prices come from a grid whose points are at least the tolerance apart. */
  ghost predicate Gridded(grid: iset<real>) {
    forall p, q | p in grid && q in grid && p != q :: !Near(p, q)
  }

  ghost predicate OnGrid(ls: seq<Level>, grid: iset<real>) {
    forall i | 0 <= i < |ls| :: ls[i].price in grid
  }

  ghost const EIGHT_DECIMALS: iset<real> := iset k: int {:trigger k as real} :: k as real / 100000000.0

  /** Prices with at most eight decimals are such a grid: no two of them are ever taken for one. */
  lemma EightDecimalsAreGridded()
    ensures Gridded(EIGHT_DECIMALS)
  {
    forall p, q | p in EIGHT_DECIMALS && q in EIGHT_DECIMALS && p != q
      ensures !Near(p, q)
    {
      var k: int :| p == k as real / 100000000.0;
      var l: int :| q == l as real / 100000000.0;
      EightDecimalsApart(k, l);
    }
  }

  lemma EightDecimalsApart(k: int, l: int)
    requires k != l
    ensures !Near(k as real / 100000000.0, l as real / 100000000.0)
  {
  }

  predicate Above(p: real, f: Option<real>) {
    f.None? || p > f.value
  }

  predicate HeldIsTrue(levels: seq<Level>, truth: map<real, real>) {
    forall i | 0 <= i < |levels| :: levels[i].price in truth && truth[levels[i].price] == levels[i].vol
  }

  predicate TrueIsHeld(levels: seq<Level>, truth: map<real, real>, f: Option<real>) {
    forall p | p in truth && Above(p, f) :: Level(p, truth[p]) in levels
  }

  ghost predicate Agrees(t: Track, grid: iset<real>, n: nat) {
    && WellKept(t.levels, n) && OnGrid(t.levels, grid) && (forall p | p in t.truth :: p in grid)
    && HeldIsTrue(t.levels, t.truth)
    && TrueIsHeld(t.levels, t.truth, t.frontier)
  }

  /** On the grid the tolerance search finds exactly the level with this price. */
  lemma FindOnGrid(levels: seq<Level>, p: real, grid: iset<real>)
    requires Gridded(grid) && OnGrid(levels, grid) && p in grid
    ensures var i := FindLevel(levels, p);
            if i < |levels| then levels[i].price == p else forall k | 0 <= k < |levels| :: levels[k].price != p
  {
    var i := FindLevel(levels, p);
    if i == |levels| {
      assert forall k | 0 <= k < |levels| :: !Near(levels[k].price, p);
    }
  }

  lemma RemovedMembers(levels: seq<Level>, i: nat, x: Level)
    requires Spaced(levels) && i < |levels|
    ensures x in Remove(levels, i) <==> x in levels && x.price != levels[i].price
  {
    var r := Remove(levels, i);
    if x in levels && x.price != levels[i].price {
      var k :| 0 <= k < |levels| && levels[k] == x;
      assert r[if k < i then k else k - 1] == x;
    }
  }

  lemma ReplacedMembers(levels: seq<Level>, i: nat, v: real, x: Level)
    requires Spaced(levels) && i < |levels|
    ensures x in levels[i := Level(levels[i].price, v)]
       <==> if x.price == levels[i].price then x.vol == v else x in levels
  {
    var r := levels[i := Level(levels[i].price, v)];
    assert r[i] == Level(levels[i].price, v);
    if x in levels && x.price != levels[i].price {
      var k :| 0 <= k < |levels| && levels[k] == x;
      assert r[k] == x;
    }
  }

  lemma PoppedMembers(levels: seq<Level>, x: Level)
    requires Spaced(levels) && levels != []
    ensures x in levels[..|levels| - 1] <==> x in levels && x.price != levels[|levels| - 1].price
  {
    if x in levels && x.price != levels[|levels| - 1].price {
      var k :| 0 <= k < |levels| && levels[k] == x;
      assert levels[..|levels| - 1][k] == x;
    }
  }

  /** Membership in the updated book, in each of the cases of an update. */
  ghost predicate UpdatedMember(levels: seq<Level>, l: Level, f: Option<real>, n: nat, x: Level) {
    var levels', f' := UpdateDesc(levels, l, n), FrontierStep(f, levels, l, n);
    && (x in levels' ==> if x.price == l.price then x == l && l.vol > 0.0 else x in levels)
    && (Above(x.price, f') && (if x.price == l.price then x == l && l.vol > 0.0 else x in levels) ==> x in levels')
  }

  lemma UpdateMembers(levels: seq<Level>, l: Level, f: Option<real>, n: nat, grid: iset<real>, x: Level)
    requires WellKept(levels, n) && Gridded(grid) && OnGrid(levels, grid) && l.price in grid && l.vol >= 0.0
    ensures UpdatedMember(levels, l, f, n, x)
  {
    var i := FindLevel(levels, l.price);
    FindOnGrid(levels, l.price, grid);
    if i < |levels| {
      RemovedMembers(levels, i, x);
      ReplacedMembers(levels, i, l.vol, x);
    } else if l.vol > 0.0 {
      InsertedMembers(levels, l, n, x);
    }
  }

  lemma PopMembers(levels: seq<Level>, n: nat, x: Level)
    requires Spaced(levels) && levels != []
    ensures x in PopAbove(levels, n) <==> x in levels && (|levels| > n ==> x.price != levels[|levels| - 1].price)
  {
    PoppedMembers(levels, x);
  }

  lemma PopInserted(levels: seq<Level>, l: Level, n: nat, x: Level)
    requires Spaced(levels) && forall k | 0 <= k < |levels| :: !Near(levels[k].price, l.price)
    ensures var more := Insert(levels, InsertPosDesc(levels, l.price), l);
            x in PopAbove(more, n) <==> x in more && (|more| > n ==> x.price != more[|levels|].price)
  {
    InsertKeepsSpaced(levels, l);
    PopMembers(Insert(levels, InsertPosDesc(levels, l.price), l), n, x);
  }

  /** Membership after an insertion and a pop, which removes what is at price `worst`. */
  lemma InsertedMembers(levels: seq<Level>, l: Level, n: nat, x: Level)
    requires Spaced(levels) && forall k | 0 <= k < |levels| :: !Near(levels[k].price, l.price)
    ensures var more := Insert(levels, InsertPosDesc(levels, l.price), l);
            x in PopAbove(more, n) <==>
            (if x.price == l.price then x == l else x in levels) && (|more| > n ==> x.price != more[|levels|].price)
  {
    var more := Insert(levels, InsertPosDesc(levels, l.price), l);
    assert x in more <==> x == l || x in levels by {
      InsertMembers(levels, InsertPosDesc(levels, l.price), l, x);
    }
    PopInserted(levels, l, n, x);
    if x in levels {
      NotNear(levels, l.price, x);
    }
  }

  lemma NotNear(levels: seq<Level>, price: real, x: Level)
    requires x in levels && forall k | 0 <= k < |levels| :: !Near(levels[k].price, price)
    ensures x.price != price
  {
  }

  lemma UpdatedIsTrue(t: Track, l: Level, grid: iset<real>, n: nat, x: Level)
    requires Agrees(t, grid, n) && Gridded(grid) && l.price in grid && l.vol >= 0.0
    requires x in UpdateDesc(t.levels, l, n)
    ensures x.price in grid && x.price in TruthStep(t.truth, l) && TruthStep(t.truth, l)[x.price] == x.vol
  {
    UpdateMembers(t.levels, l, t.frontier, n, grid, x);
    if x.price != l.price {
      var i :| 0 <= i < |t.levels| && t.levels[i] == x;
    }
  }

  lemma TrueStaysHeld(t: Track, l: Level, grid: iset<real>, n: nat, p: real)
    requires Agrees(t, grid, n) && Gridded(grid) && l.price in grid && l.vol >= 0.0
    requires p in TruthStep(t.truth, l) && Above(p, FrontierStep(t.frontier, t.levels, l, n))
    ensures Level(p, TruthStep(t.truth, l)[p]) in UpdateDesc(t.levels, l, n)
  {
    var x := Level(p, TruthStep(t.truth, l)[p]);
    UpdateMembers(t.levels, l, t.frontier, n, grid, x);
    if p != l.price {
      assert Above(p, t.frontier);
      assert Level(p, t.truth[p]) in t.levels;
    }
  }

  lemma UpdateKeepsAgreement(t: Track, l: Level, grid: iset<real>, n: nat)
    requires Agrees(t, grid, n) && Gridded(grid) && l.price in grid && l.vol >= 0.0
    ensures Agrees(TrackUpdate(t, l, n), grid, n)
  {
    var t' := TrackUpdate(t, l, n);
    UpdateKeepsOrder(t.levels, l, n);
    forall i | 0 <= i < |t'.levels|
      ensures t'.levels[i].price in grid && t'.levels[i].price in t'.truth
              && t'.truth[t'.levels[i].price] == t'.levels[i].vol
    {
      UpdatedIsTrue(t, l, grid, n, t'.levels[i]);
    }
    forall p | p in t'.truth && Above(p, t'.frontier)
      ensures Level(p, t'.truth[p]) in t'.levels
    {
      TrueStaysHeld(t, l, grid, n, p);
    }
  }

  lemma {:induction false} DeltaKeepsAgreement(t: Track, ls: seq<Level>, grid: iset<real>, n: nat)
    requires Agrees(t, grid, n) && Gridded(grid) && OnGrid(ls, grid) && NonNegativeVolumes(ls)
    ensures Agrees(TrackDelta(t, ls, n), grid, n)
    decreases |ls|
  {
    if ls != [] {
      UpdateKeepsAgreement(t, ls[0], grid, n);
      DeltaKeepsAgreement(TrackUpdate(t, ls[0], n), ls[1..], grid, n);
    }
  }

  lemma {:induction false} QuotesHold(ls: seq<Level>)
    requires Separated(ls)
    ensures HeldIsTrue(ls, Quotes(ls))
    ensures forall p | p in Quotes(ls) :: Level(p, Quotes(ls)[p]) in ls
  {
    if ls != [] {
      QuotesHold(ls[1..]);
      forall i | 1 <= i < |ls|
        ensures ls[i].price != ls[0].price && ls[i] == ls[1..][i - 1]
      {
      }
    }
  }

  lemma {:induction false} BestBounds(ls: seq<Level>, i: nat)
    requires i < |ls|
    ensures Best(ls).Some? && ls[i].price <= Best(ls).value
  {
    if i > 0 {
      BestBounds(ls[1..], i - 1);
    }
  }

  lemma SnapshotHeldIsTrue(ls: seq<Level>, grid: iset<real>, n: nat)
    requires Separated(ls) && OnGrid(ls, grid)
    ensures HeldIsTrue(SnapshotDesc(ls, n), Quotes(ls)) && OnGrid(SnapshotDesc(ls, n), grid)
  {
    var kept := if |ls| <= n then ls else ls[..n];
    var levels := SnapshotDesc(ls, n);
    QuotesHold(ls);
    forall i | 0 <= i < |levels|
      ensures levels[i].price in grid && levels[i].price in Quotes(ls) && Quotes(ls)[levels[i].price] == levels[i].vol
    {
      SortSameMembers(kept, levels[i]);
      var k :| 0 <= k < |kept| && kept[k] == levels[i];
      assert ls[k] == levels[i];
    }
  }

  lemma BestIsHeld(ls: seq<Level>, n: nat, k: nat)
    requires k < |ls| && Above(ls[k].price, TrackSnapshot(ls, n).frontier)
    ensures ls[k] in SnapshotDesc(ls, n)
  {
    var kept := if |ls| <= n then ls else ls[..n];
    if k >= n {
      assert ls[n..][k - n] == ls[k];
      BestBounds(ls[n..], k - n);
    } else {
      assert kept[k] == ls[k];
    }
    SortSameMembers(kept, ls[k]);
  }

  lemma SnapshotTrueIsHeld(ls: seq<Level>, n: nat)
    requires Separated(ls)
    ensures TrueIsHeld(SnapshotDesc(ls, n), Quotes(ls), TrackSnapshot(ls, n).frontier)
  {
    QuotesHold(ls);
    forall p | p in Quotes(ls) && Above(p, TrackSnapshot(ls, n).frontier)
      ensures Level(p, Quotes(ls)[p]) in SnapshotDesc(ls, n)
    {
      var k :| 0 <= k < |ls| && ls[k] == Level(p, Quotes(ls)[p]);
      BestIsHeld(ls, n, k);
    }
  }

  lemma SnapshotAgrees(ls: seq<Level>, grid: iset<real>, n: nat)
    requires Separated(ls) && PositiveVolumes(ls) && OnGrid(ls, grid)
    ensures Agrees(TrackSnapshot(ls, n), grid, n)
  {
    SnapshotOrders(ls, n);
    QuotesHold(ls);
    SnapshotHeldIsTrue(ls, grid, n);
    SnapshotTrueIsHeld(ls, n);
  }

  // ---------------------------------------------------------------------------
  // How many levels are better than the frontier
  // ---------------------------------------------------------------------------

  function CountAbove(levels: seq<Level>, f: real): (c: nat)
    ensures c <= |levels|
  {
    if levels == [] then 0 else (if levels[0].price > f then 1 else 0) + CountAbove(levels[1..], f)
  }

  lemma {:induction false} CountConcat(a: seq<Level>, b: seq<Level>, f: real)
    ensures CountAbove(a + b, f) == CountAbove(a, f) + CountAbove(b, f)
  {
    if a == [] {
      assert a + b == b;
    } else {
      assert (a + b)[1..] == a[1..] + b;
      CountConcat(a[1..], b, f);
    }
  }

  lemma {:induction false} CountAll(levels: seq<Level>, f: real)
    requires forall i | 0 <= i < |levels| :: levels[i].price > f
    ensures CountAbove(levels, f) == |levels|
  {
    if levels != [] {
      CountAll(levels[1..], f);
    }
  }

  lemma CountRemoved(levels: seq<Level>, i: nat, f: real)
    requires i < |levels|
    ensures CountAbove(Remove(levels, i), f) + 1 >= CountAbove(levels, f)
  {
    assert levels == levels[..i] + ([levels[i]] + levels[i + 1..]);
    CountConcat(levels[..i], [levels[i]] + levels[i + 1..], f);
    CountConcat([levels[i]], levels[i + 1..], f);
    CountConcat(levels[..i], levels[i + 1..], f);
  }

  lemma CountReplaced(levels: seq<Level>, i: nat, v: real, f: real)
    requires i < |levels|
    ensures CountAbove(levels[i := Level(levels[i].price, v)], f) == CountAbove(levels, f)
  {
    var l := Level(levels[i].price, v);
    assert levels == levels[..i] + ([levels[i]] + levels[i + 1..]);
    assert levels[i := l] == levels[..i] + ([l] + levels[i + 1..]);
    CountConcat(levels[..i], [levels[i]] + levels[i + 1..], f);
    CountConcat(levels[..i], [l] + levels[i + 1..], f);
  }

  lemma CountInserted(levels: seq<Level>, p: nat, l: Level, f: real)
    requires p <= |levels|
    ensures CountAbove(Insert(levels, p, l), f) >= CountAbove(levels, f)
  {
    assert levels == levels[..p] + levels[p..];
    assert Insert(levels, p, l) == levels[..p] + ([l] + levels[p..]);
    CountConcat(levels[..p], levels[p..], f);
    CountConcat(levels[..p], [l] + levels[p..], f);
  }

  lemma CountPopped(levels: seq<Level>, f: real)
    requires levels != [] && levels[|levels| - 1].price <= f
    ensures CountAbove(levels[..|levels| - 1], f) == CountAbove(levels, f)
  {
    var k := |levels| - 1;
    assert levels == levels[..k] + [levels[k]];
    CountConcat(levels[..k], [levels[k]], f);
  }

  /** Once something has been pushed out, at least `n` less the removals are better than it. */
  predicate Deep(t: Track, n: nat) {
    t.frontier.Some? ==> CountAbove(t.levels, t.frontier.value) + t.removals >= n
  }

  /** A pop at or behind the frontier leaves the count of better levels alone. */
  lemma InsertKeepsCount(levels: seq<Level>, p: nat, l: Level, f: real, n: nat)
    requires p <= |levels|
    requires |levels| + 1 > n ==> Insert(levels, p, l)[|levels|].price <= f
    ensures CountAbove(PopAbove(Insert(levels, p, l), n), f) >= CountAbove(levels, f)
  {
    CountInserted(levels, p, l, f);
    if |levels| + 1 > n {
      CountPopped(Insert(levels, p, l), f);
    }
  }

  /** A pop ahead of the frontier leaves only better levels. */
  lemma PopLeavesBetter(levels: seq<Level>)
    requires Spaced(levels) && levels != []
    ensures CountAbove(levels[..|levels| - 1], levels[|levels| - 1].price) == |levels| - 1
  {
    CountAll(levels[..|levels| - 1], levels[|levels| - 1].price);
  }

  lemma InsertKeepsDeep(t: Track, l: Level, n: nat)
    requires Deep(t, n) && WellKept(t.levels, n) && l.vol > 0.0 && FindLevel(t.levels, l.price) == |t.levels|
    ensures Deep(TrackUpdate(t, l, n), n)
  {
    var f' := FrontierStep(t.frontier, t.levels, l, n);
    var p := InsertPosDesc(t.levels, l.price);
    if f'.Some? && f' == t.frontier {
      InsertKeepsCount(t.levels, p, l, f'.value, n);
    } else if f'.Some? {
      InsertKeepsSpaced(t.levels, l);
      PopLeavesBetter(Insert(t.levels, p, l));
    }
  }

  lemma UpdateKeepsDeep(t: Track, l: Level, n: nat)
    requires Deep(t, n) && WellKept(t.levels, n) && l.vol >= 0.0
    ensures Deep(TrackUpdate(t, l, n), n)
  {
    var i := FindLevel(t.levels, l.price);
    if i == |t.levels| && l.vol > 0.0 {
      InsertKeepsDeep(t, l, n);
    } else if i < |t.levels| && t.frontier.Some? {
      CountRemoved(t.levels, i, t.frontier.value);
      CountReplaced(t.levels, i, l.vol, t.frontier.value);
    }
  }

  lemma {:induction false} DeltaKeepsDeep(t: Track, ls: seq<Level>, n: nat)
    requires Deep(t, n) && WellKept(t.levels, n) && NonNegativeVolumes(ls)
    ensures Deep(TrackDelta(t, ls, n), n)
    decreases |ls|
  {
    if ls != [] {
      UpdateKeepsDeep(t, ls[0], n);
      UpdateKeepsOrder(t.levels, ls[0], n);
      DeltaKeepsDeep(TrackUpdate(t, ls[0], n), ls[1..], n);
    }
  }

  /** The levels a snapshot keeps are better than those the size limit cuts off, as they are when
      the exchange lists them best first; trivially so for a snapshot of at most `n` levels. */
  predicate KeepsBest(ls: seq<Level>, n: nat) {
    forall i, j | 0 <= i < n <= j < |ls| :: ls[i].price > ls[j].price
  }

  lemma {:induction false} BestIsMember(ls: seq<Level>) returns (k: nat)
    requires ls != []
    ensures k < |ls| && Best(ls) == Some(ls[k].price)
  {
    if |ls| == 1 || Best(ls) == Some(ls[0].price) {
      k := 0;
    } else {
      var j := BestIsMember(ls[1..]);
      k := j + 1;
    }
  }

  lemma SnapshotDeep(ls: seq<Level>, n: nat)
    requires KeepsBest(ls, n)
    ensures Deep(TrackSnapshot(ls, n), n)
  {
    if |ls| > n {
      var k := BestIsMember(ls[n..]);
      var f := ls[n + k].price;
      var t := TrackSnapshot(ls, n);
      forall i | 0 <= i < |t.levels|
        ensures t.levels[i].price > f
      {
        SortSameMembers(ls[..n], t.levels[i]);
        var j :| 0 <= j < n && ls[..n][j] == t.levels[i];
      }
      CountAll(t.levels, f);
    }
  }

  // ---------------------------------------------------------------------------
  // Main results
  // ---------------------------------------------------------------------------

  /** Snapshot levels have distinct grid prices and positive volumes, delta volumes are not negative. */
  ghost predicate Accepted(m: SideMsg, grid: iset<real>) {
    && OnGrid(m.levels, grid)
    && if m.Snapshot? then Separated(m.levels) && PositiveVolumes(m.levels) else NonNegativeVolumes(m.levels)
  }

  lemma {:induction false} RunAgrees(t: Track, msgs: seq<SideMsg>, grid: iset<real>, n: nat)
    requires Agrees(t, grid, n) && Gridded(grid) && forall m | m in msgs :: Accepted(m, grid)
    ensures Agrees(TrackRun(t, msgs, n), grid, n)
    decreases |msgs|
  {
    if msgs != [] {
      var m := msgs[0];
      assert Accepted(m, grid);
      match m {
        case Snapshot(ls) => SnapshotAgrees(ls, grid, n);
        case Delta(ls) => DeltaKeepsAgreement(t, ls, grid, n);
      }
      RunAgrees(TrackMsg(t, m, n), msgs[1..], grid, n);
    }
  }

  lemma {:induction false} RunDeep(t: Track, msgs: seq<SideMsg>, grid: iset<real>, n: nat)
    requires Deep(t, n) && WellKept(t.levels, n)
    requires forall m | m in msgs :: Accepted(m, grid) && (m.Snapshot? ==> KeepsBest(m.levels, n))
    ensures Deep(TrackRun(t, msgs, n), n)
    decreases |msgs|
  {
    if msgs != [] {
      var m := msgs[0];
      assert Accepted(m, grid);
      match m {
        case Snapshot(ls) =>
          SnapshotDeep(ls, n);
          SnapshotOrders(ls, n);
        case Delta(ls) =>
          DeltaKeepsDeep(t, ls, n);
          TrackDeltaFollows(t, ls, n);
          DeltaKeepsOrder(t.levels, ls, n);
      }
      RunDeep(TrackMsg(t, m, n), msgs[1..], grid, n);
    }
  }

  /** After any run the book and the unbounded map have the same prices with the same volumes
      strictly beyond the frontier, every held level is in the map, and while nothing has been
      pushed out they are equal. */
  lemma BookAgreesBeyondFrontier(msgs: seq<SideMsg>, grid: iset<real>, n: nat)
    requires Gridded(grid) && forall m | m in msgs :: Accepted(m, grid)
    ensures var t := TrackRun(EMPTY_TRACK, msgs, n);
            && t.levels == SideRun([], msgs, n)
            && (forall p, v :: Level(p, v) in t.levels ==> p in t.truth && t.truth[p] == v)
            && (forall p | p in t.truth && Above(p, t.frontier) :: Level(p, t.truth[p]) in t.levels)
            && (t.frontier.None? ==> Quotes(t.levels) == t.truth)
  {
    var t := TrackRun(EMPTY_TRACK, msgs, n);
    TrackRunFollows(EMPTY_TRACK, msgs, n);
    RunAgrees(EMPTY_TRACK, msgs, grid, n);
    HeldLevels(t.levels, t.truth);
    if t.frontier.None? {
      AllHeld(t.levels, t.truth);
    }
  }

  lemma HeldLevels(levels: seq<Level>, truth: map<real, real>)
    requires HeldIsTrue(levels, truth)
    ensures forall p, v :: Level(p, v) in levels ==> p in truth && truth[p] == v
  {
  }

  lemma AllHeld(levels: seq<Level>, truth: map<real, real>)
    requires Separated(levels) && HeldIsTrue(levels, truth) && TrueIsHeld(levels, truth, None)
    ensures Quotes(levels) == truth
  {
    QuotesHold(levels);
    forall p
      ensures p in Quotes(levels) <==> p in truth
      ensures p in truth ==> Quotes(levels)[p] == truth[p]
    {
      if p in truth {
        assert Level(p, truth[p]) in levels;
      }
    }
  }

  /** `top` is the `k` best quotes of the map, best first, or all of them when there are fewer. */
  ghost predicate IsTop(top: seq<Level>, truth: map<real, real>, k: nat) {
    && |top| == (if |truth| <= k then |truth| else k)
    && Spaced(top)
    && HeldIsTrue(top, truth)
    && forall p | p in truth && (forall i | 0 <= i < |top| :: top[i].price != p) ::
         forall i | 0 <= i < |top| :: top[i].price > p
  }

  function Top(levels: seq<Level>, k: nat): seq<Level> {
    levels[..if |levels| <= k then |levels| else k]
  }

  lemma {:induction false} PriceSet(levels: seq<Level>) returns (ps: set<real>)
    requires Spaced(levels)
    ensures |ps| == |levels| && forall p :: p in ps <==> exists i :: 0 <= i < |levels| && levels[i].price == p
  {
    if levels == [] {
      ps := {};
    } else {
      var n := |levels| - 1;
      var rest := PriceSet(levels[..n]);
      assert levels[n].price !in rest;
      ps := rest + {levels[n].price};
      forall p
        ensures p in ps <==> exists i :: 0 <= i < |levels| && levels[i].price == p
      {
        if p in rest {
          var i :| 0 <= i < n && levels[..n][i].price == p;
          assert levels[i].price == p;
        }
        if i :| 0 <= i < |levels| && levels[i].price == p {
          assert i < n ==> levels[..n][i].price == p;
        }
      }
    }
  }

  lemma SubsetSize(a: set<real>, b: set<real>)
    requires a <= b
    ensures |a| <= |b| && (|a| == |b| ==> a == b)
  {
    assert b == a + (b - a) && |b| == |a| + |b - a|;
  }

  lemma {:induction false} CountIsPrefix(levels: seq<Level>, f: real, i: nat)
    requires Spaced(levels) && i < CountAbove(levels, f)
    ensures levels[i].price > f
  {
    if levels[0].price <= f {
      NoneAbove(levels, f);
      assert false;
    } else if i > 0 {
      CountIsPrefix(levels[1..], f, i - 1);
    }
  }

  lemma {:induction false} NoneAbove(levels: seq<Level>, f: real)
    requires forall i | 0 <= i < |levels| :: levels[i].price <= f
    ensures CountAbove(levels, f) == 0
  {
    if levels != [] {
      NoneAbove(levels[1..], f);
    }
  }

  lemma TopIsTrueAbove(t: Track, grid: iset<real>, n: nat, k: nat)
    requires Agrees(t, grid, n)
    requires t.frontier.Some? ==> CountAbove(t.levels, t.frontier.value) >= k
    ensures IsTop(Top(t.levels, k), t.truth, k)
  {
    var top := Top(t.levels, k);
    forall p, i | p in t.truth && (forall i | 0 <= i < |top| :: top[i].price != p) && 0 <= i < |top|
      ensures top[i].price > p
    {
      MissedIsWorse(t, p, top, i);
    }
    TopSize(t, grid, n, k);
  }

  lemma MissedIsWorse(t: Track, p: real, top: seq<Level>, i: nat)
    requires Spaced(t.levels) && TrueIsHeld(t.levels, t.truth, t.frontier) && top <= t.levels && i < |top|
    requires t.frontier.Some? ==> CountAbove(t.levels, t.frontier.value) >= |top|
    requires p in t.truth && forall i | 0 <= i < |top| :: top[i].price != p
    ensures top[i].price > p
  {
    if t.frontier.Some? {
      CountIsPrefix(t.levels, t.frontier.value, i);
    }
    assert top[i] == t.levels[i];
    if Above(p, t.frontier) {
      var j :| 0 <= j < |t.levels| && t.levels[j] == Level(p, t.truth[p]);
      InPrefix(top, t.levels, j);
    }
  }

  lemma InPrefix(top: seq<Level>, levels: seq<Level>, j: nat)
    requires top <= levels && j < |levels|
    ensures j < |top| ==> exists i :: 0 <= i < |top| && top[i].price == levels[j].price
  {
    if j < |top| {
      assert top[j] == levels[j];
    }
  }

  lemma TopSize(t: Track, grid: iset<real>, n: nat, k: nat)
    requires Agrees(t, grid, n)
    requires t.frontier.Some? ==> CountAbove(t.levels, t.frontier.value) >= k
    ensures |Top(t.levels, k)| == if |t.truth| <= k then |t.truth| else k
  {
    var ps := PriceSet(t.levels);
    forall p | p in ps
      ensures p in t.truth.Keys
    {
      var i :| 0 <= i < |t.levels| && t.levels[i].price == p;
    }
    SubsetSize(ps, t.truth.Keys);
    if t.frontier.None? {
      forall p | p in t.truth.Keys
        ensures p in ps
      {
        var i :| 0 <= i < |t.levels| && t.levels[i] == Level(p, t.truth[p]);
      }
      assert ps == t.truth.Keys;
    }
  }

  /** While at most `n - k` levels have been removed since the snapshot, the best `k` levels of the
      book are the best `k` of everything the exchange has quoted. */
  lemma TopIsTrue(msgs: seq<SideMsg>, grid: iset<real>, n: nat, k: nat)
    requires Gridded(grid)
    requires forall m | m in msgs :: Accepted(m, grid) && (m.Snapshot? ==> KeepsBest(m.levels, n))
    requires TrackRun(EMPTY_TRACK, msgs, n).removals + k <= n
    ensures IsTop(Top(SideRun([], msgs, n), k), TrackRun(EMPTY_TRACK, msgs, n).truth, k)
  {
    TrackRunFollows(EMPTY_TRACK, msgs, n);
    RunAgrees(EMPTY_TRACK, msgs, grid, n);
    RunDeep(EMPTY_TRACK, msgs, grid, n);
    TopIsTrueAbove(TrackRun(EMPTY_TRACK, msgs, n), grid, n, k);
  }
}
