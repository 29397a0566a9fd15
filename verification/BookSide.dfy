/** One side of the incremental order book as a list of levels: what a delta entry and a snapshot do
    to it, the order it keeps, and how the ask side mirrors the bid side. */
module BookSide {

  datatype Level = Level(price: real, vol: real)

  const PRICE_EPS: real := 0.0000000001

  function Abs(x: real): real {
    if x < 0.0 then -x else x
  }

  predicate Near(p: real, q: real) {
    Abs(p - q) < PRICE_EPS
  }

  /** Index of the first level at this price, up to the tolerance, or the length. */
  function FindLevel(levels: seq<Level>, price: real): (i: nat)
    ensures i <= |levels|
    ensures i < |levels| ==> Near(levels[i].price, price)
    ensures forall k | 0 <= k < i :: !Near(levels[k].price, price)
  {
    if levels == [] || Near(levels[0].price, price) then 0 else 1 + FindLevel(levels[1..], price)
  }

  function InsertPosDesc(levels: seq<Level>, price: real): (i: nat)
    ensures i <= |levels|
    ensures i < |levels| ==> levels[i].price < price
    ensures forall k | 0 <= k < i :: levels[k].price >= price
  {
    if levels == [] || levels[0].price < price then 0 else 1 + InsertPosDesc(levels[1..], price)
  }

  function InsertPosAsc(levels: seq<Level>, price: real): (i: nat)
    ensures i <= |levels|
    ensures i < |levels| ==> levels[i].price > price
    ensures forall k | 0 <= k < i :: levels[k].price <= price
  {
    if levels == [] || levels[0].price > price then 0 else 1 + InsertPosAsc(levels[1..], price)
  }

  function Remove(levels: seq<Level>, i: nat): seq<Level>
    requires i < |levels|
  {
    levels[..i] + levels[i + 1..]
  }

  function Insert(levels: seq<Level>, i: nat, l: Level): seq<Level>
    requires i <= |levels|
  {
    levels[..i] + [l] + levels[i..]
  }

  function PopAbove(levels: seq<Level>, maxLevels: nat): seq<Level> {
    if |levels| > maxLevels then levels[..|levels| - 1] else levels
  }

  /** One entry of a delta, on the bid side. */
  function UpdateDesc(levels: seq<Level>, l: Level, maxLevels: nat): seq<Level> {
    var i := FindLevel(levels, l.price);
    if i < |levels| then
      if l.vol == 0.0 then Remove(levels, i) else levels[i := Level(levels[i].price, l.vol)]
    else if l.vol > 0.0 then PopAbove(Insert(levels, InsertPosDesc(levels, l.price), l), maxLevels)
    else levels
  }

  /** One entry of a delta, on the ask side. */
  function UpdateAsc(levels: seq<Level>, l: Level, maxLevels: nat): seq<Level> {
    var i := FindLevel(levels, l.price);
    if i < |levels| then
      if l.vol == 0.0 then Remove(levels, i) else levels[i := Level(levels[i].price, l.vol)]
    else if l.vol > 0.0 then PopAbove(Insert(levels, InsertPosAsc(levels, l.price), l), maxLevels)
    else levels
  }

  function DeltaDesc(levels: seq<Level>, delta: seq<Level>, maxLevels: nat): seq<Level>
    decreases |delta|
  {
    if delta == [] then levels else DeltaDesc(UpdateDesc(levels, delta[0], maxLevels), delta[1..], maxLevels)
  }

  function DeltaAsc(levels: seq<Level>, delta: seq<Level>, maxLevels: nat): seq<Level>
    decreases |delta|
  {
    if delta == [] then levels else DeltaAsc(UpdateAsc(levels, delta[0], maxLevels), delta[1..], maxLevels)
  }

  /** Stable sorting by price, as `slice::sort_by` does it: each level goes after its equals. */
  function SortDesc(levels: seq<Level>): (r: seq<Level>)
    ensures |r| == |levels|
  {
    if levels == [] then []
    else
      var n := |levels| - 1;
      var sorted := SortDesc(levels[..n]);
      Insert(sorted, InsertPosDesc(sorted, levels[n].price), levels[n])
  }

  function SortAsc(levels: seq<Level>): (r: seq<Level>)
    ensures |r| == |levels|
  {
    if levels == [] then []
    else
      var n := |levels| - 1;
      var sorted := SortAsc(levels[..n]);
      Insert(sorted, InsertPosAsc(sorted, levels[n].price), levels[n])
  }

  /** The input is cut to `maxLevels` entries first and sorted afterwards. */
  function SnapshotDesc(levels: seq<Level>, maxLevels: nat): seq<Level> {
    SortDesc(if |levels| <= maxLevels then levels else levels[..maxLevels])
  }

  function SnapshotAsc(levels: seq<Level>, maxLevels: nat): seq<Level> {
    SortAsc(if |levels| <= maxLevels then levels else levels[..maxLevels])
  }

  /** A negative volume neither inserts nor removes a level. */
  lemma NegativeVolumeKeepsPrices(levels: seq<Level>, l: Level, maxLevels: nat)
    requires l.vol < 0.0
    ensures var d, a := UpdateDesc(levels, l, maxLevels), UpdateAsc(levels, l, maxLevels);
            |d| == |a| == |levels| && forall k | 0 <= k < |levels| :: d[k].price == a[k].price == levels[k].price
  {
  }

  // ---------------------------------------------------------------------------
  // Mirror: the ask side is the bid side with prices negated
  // ---------------------------------------------------------------------------

  function MirrorLevel(l: Level): Level {
    Level(-l.price, l.vol)
  }

  function Mirror(levels: seq<Level>): (r: seq<Level>)
    ensures |r| == |levels| && forall i | 0 <= i < |r| :: r[i] == MirrorLevel(levels[i])
  {
    seq(|levels|, i requires 0 <= i < |levels| => MirrorLevel(levels[i]))
  }

  lemma MirrorTwice(levels: seq<Level>)
    ensures Mirror(Mirror(levels)) == levels
  {
  }

  lemma {:induction false} MirrorFind(levels: seq<Level>, price: real)
    ensures FindLevel(Mirror(levels), -price) == FindLevel(levels, price)
  {
    if levels != [] {
      assert Mirror(levels)[1..] == Mirror(levels[1..]);
      MirrorFind(levels[1..], price);
    }
  }

  lemma {:induction false} MirrorPos(levels: seq<Level>, price: real)
    ensures InsertPosDesc(Mirror(levels), -price) == InsertPosAsc(levels, price)
  {
    if levels != [] {
      assert Mirror(levels)[1..] == Mirror(levels[1..]);
      MirrorPos(levels[1..], price);
    }
  }

  lemma MirrorEdits(levels: seq<Level>, i: nat, l: Level)
    requires i <= |levels|
    ensures Mirror(Insert(levels, i, l)) == Insert(Mirror(levels), i, MirrorLevel(l))
    ensures i < |levels| ==> Mirror(Remove(levels, i)) == Remove(Mirror(levels), i)
    ensures i < |levels| ==> Mirror(levels[i := l]) == Mirror(levels)[i := MirrorLevel(l)]
    ensures Mirror(levels[..i]) == Mirror(levels)[..i]
  {
  }

  lemma MirrorInsertPop(levels: seq<Level>, p: nat, l: Level, maxLevels: nat)
    requires p <= |levels|
    ensures Mirror(PopAbove(Insert(levels, p, l), maxLevels))
            == PopAbove(Insert(Mirror(levels), p, MirrorLevel(l)), maxLevels)
  {
    MirrorEdits(levels, p, l);
    var more := Insert(levels, p, l);
    MirrorEdits(more, |more| - 1, l);
  }

  lemma MirrorUpdate(levels: seq<Level>, l: Level, maxLevels: nat)
    ensures Mirror(UpdateAsc(levels, l, maxLevels)) == UpdateDesc(Mirror(levels), MirrorLevel(l), maxLevels)
  {
    var i := FindLevel(levels, l.price);
    assert FindLevel(Mirror(levels), MirrorLevel(l).price) == i by {
      MirrorFind(levels, l.price);
    }
    if i < |levels| {
      var m := Level(levels[i].price, l.vol);
      MirrorEdits(levels, i, m);
      assert MirrorLevel(m) == Level(Mirror(levels)[i].price, l.vol);
    } else if l.vol > 0.0 {
      MirrorPos(levels, l.price);
      MirrorInsertPop(levels, InsertPosAsc(levels, l.price), l, maxLevels);
    }
  }

  lemma {:induction false} MirrorDelta(levels: seq<Level>, delta: seq<Level>, maxLevels: nat)
    ensures Mirror(DeltaAsc(levels, delta, maxLevels)) == DeltaDesc(Mirror(levels), Mirror(delta), maxLevels)
    decreases |delta|
  {
    if delta != [] {
      MirrorUpdate(levels, delta[0], maxLevels);
      MirrorDelta(UpdateAsc(levels, delta[0], maxLevels), delta[1..], maxLevels);
      assert Mirror(delta)[1..] == Mirror(delta[1..]);
    }
  }

  lemma SortSnoc(levels: seq<Level>, l: Level)
    ensures SortDesc(levels + [l]) == Insert(SortDesc(levels), InsertPosDesc(SortDesc(levels), l.price), l)
    ensures SortAsc(levels + [l]) == Insert(SortAsc(levels), InsertPosAsc(SortAsc(levels), l.price), l)
  {
    assert (levels + [l])[..|levels|] == levels;
  }

  lemma MirrorSnoc(levels: seq<Level>, l: Level)
    ensures Mirror(levels + [l]) == Mirror(levels) + [MirrorLevel(l)]
  {
  }

  lemma {:induction false} MirrorSort(levels: seq<Level>)
    ensures Mirror(SortAsc(levels)) == SortDesc(Mirror(levels))
  {
    if levels != [] {
      var init, l := levels[..|levels| - 1], levels[|levels| - 1];
      MirrorSort(init);
      assert levels == init + [l];
      MirrorSnoc(init, l);
      SortSnoc(init, l);
      SortSnoc(Mirror(init), MirrorLevel(l));
      MirrorSorted(SortAsc(init), l);
    }
  }

  lemma MirrorSorted(sorted: seq<Level>, l: Level)
    ensures Mirror(Insert(sorted, InsertPosAsc(sorted, l.price), l))
            == Insert(Mirror(sorted), InsertPosDesc(Mirror(sorted), MirrorLevel(l).price), MirrorLevel(l))
  {
    MirrorPos(sorted, l.price);
    MirrorEdits(sorted, InsertPosAsc(sorted, l.price), l);
  }

  // ---------------------------------------------------------------------------
  // Sorting
  // ---------------------------------------------------------------------------

  predicate Descending(levels: seq<Level>) {
    forall i, j | 0 <= i < j < |levels| :: levels[i].price >= levels[j].price
  }

  /** The levels at one price, in the order in which they are listed. */
  function AtPrice(levels: seq<Level>, p: real): seq<Level> {
    if levels == [] then []
    else
      var n := |levels| - 1;
      AtPrice(levels[..n], p) + if levels[n].price == p then [levels[n]] else []
  }

  lemma {:induction false} AtPriceConcat(a: seq<Level>, b: seq<Level>, p: real)
    ensures AtPrice(a + b, p) == AtPrice(a, p) + AtPrice(b, p)
  {
    if b == [] {
      assert a + b == a;
    } else {
      var n := |b| - 1;
      assert (a + b)[..|a| + n] == a + b[..n];
      AtPriceConcat(a, b[..n], p);
    }
  }

  lemma {:induction false} NoneAtPrice(levels: seq<Level>, p: real)
    requires forall i | 0 <= i < |levels| :: levels[i].price != p
    ensures AtPrice(levels, p) == []
  {
    if levels != [] {
      NoneAtPrice(levels[..|levels| - 1], p);
    }
  }

  lemma InsertKeepsDescending(sorted: seq<Level>, l: Level)
    requires Descending(sorted)
    ensures Descending(Insert(sorted, InsertPosDesc(sorted, l.price), l))
  {
  }

  lemma AtPriceOfParts(front: seq<Level>, l: Level, back: seq<Level>, p: real)
    requires l.price == p ==> AtPrice(back, p) == []
    ensures AtPrice(front + [l] + back, p) == AtPrice(front + back, p) + if l.price == p then [l] else []
  {
    AtPriceConcat(front, back, p);
    AtPriceConcat(front + [l], back, p);
    assert (front + [l])[..|front|] == front;
    if l.price != p {
      assert AtPrice(front + [l], p) == AtPrice(front, p) + [];
    }
  }

  lemma LowerBehind(sorted: seq<Level>, price: real)
    requires Descending(sorted)
    ensures forall k | InsertPosDesc(sorted, price) <= k < |sorted| :: sorted[k].price < price
  {
  }

  /** A level goes behind its equals. */
  lemma InsertAtPrice(sorted: seq<Level>, l: Level, p: real)
    requires Descending(sorted)
    ensures AtPrice(Insert(sorted, InsertPosDesc(sorted, l.price), l), p)
            == AtPrice(sorted, p) + if l.price == p then [l] else []
  {
    var i := InsertPosDesc(sorted, l.price);
    assert sorted == sorted[..i] + sorted[i..];
    if l.price == p {
      LowerBehind(sorted, p);
      NoneAtPrice(sorted[i..], p);
    }
    AtPriceOfParts(sorted[..i], l, sorted[i..], p);
  }

  /** Sorting is stable: the result descends, and at every price holds the levels listed there, in their order. */
  lemma {:induction false} SortIsStable(levels: seq<Level>, p: real)
    ensures Descending(SortDesc(levels)) && AtPrice(SortDesc(levels), p) == AtPrice(levels, p)
  {
    if levels != [] {
      var n := |levels| - 1;
      SortIsStable(levels[..n], p);
      InsertKeepsDescending(SortDesc(levels[..n]), levels[n]);
      InsertAtPrice(SortDesc(levels[..n]), levels[n], p);
    }
  }

  lemma {:induction false} MirrorAtPrice(levels: seq<Level>, p: real)
    ensures AtPrice(Mirror(levels), -p) == Mirror(AtPrice(levels, p))
  {
    if levels != [] {
      var n := |levels| - 1;
      MirrorAtPrice(levels[..n], p);
      assert Mirror(levels)[..n] == Mirror(levels[..n]);
    }
  }

  predicate Ascending(levels: seq<Level>) {
    forall i, j | 0 <= i < j < |levels| :: levels[i].price <= levels[j].price
  }

  lemma MirrorAscends(levels: seq<Level>)
    requires Descending(Mirror(levels))
    ensures Ascending(levels)
  {
    forall i, j | 0 <= i < j < |levels|
      ensures levels[i].price <= levels[j].price
    {
      assert Mirror(levels)[i].price >= Mirror(levels)[j].price;
    }
  }

  /** So is the sorting of asks, lowest first. */
  lemma AskSortIsStable(levels: seq<Level>, p: real)
    ensures Ascending(SortAsc(levels)) && AtPrice(SortAsc(levels), p) == AtPrice(levels, p)
  {
    MirrorSort(levels);
    SortIsStable(Mirror(levels), -p);
    MirrorAscends(SortAsc(levels));
    MirrorAtPrice(SortAsc(levels), p);
    MirrorAtPrice(levels, p);
    MirrorTwice(AtPrice(SortAsc(levels), p));
    MirrorTwice(AtPrice(levels, p));
  }

  lemma MirrorSnapshot(levels: seq<Level>, maxLevels: nat)
    ensures Mirror(SnapshotAsc(levels, maxLevels)) == SnapshotDesc(Mirror(levels), maxLevels)
  {
    MirrorSort(if |levels| <= maxLevels then levels else levels[..maxLevels]);
    if |levels| > maxLevels {
      MirrorEdits(levels, maxLevels, levels[0]);
    }
  }

  // ---------------------------------------------------------------------------
  // Order
  // ---------------------------------------------------------------------------

  /** Strictly descending, any two prices at least the tolerance apart. */
  predicate Spaced(levels: seq<Level>) {
    forall i, j | 0 <= i < j < |levels| :: levels[i].price >= levels[j].price + PRICE_EPS
  }

  /** Pairwise at least the tolerance apart, in any order. */
  predicate Separated(levels: seq<Level>) {
    forall i, j | 0 <= i < j < |levels| :: !Near(levels[i].price, levels[j].price)
  }

  predicate PositiveVolumes(levels: seq<Level>) {
    forall i | 0 <= i < |levels| :: levels[i].vol > 0.0
  }

  predicate NonNegativeVolumes(levels: seq<Level>) {
    forall i | 0 <= i < |levels| :: levels[i].vol >= 0.0
  }

  /** What every run keeps on the bid side. */
  predicate WellKept(levels: seq<Level>, maxLevels: nat) {
    Spaced(levels) && PositiveVolumes(levels) && |levels| <= maxLevels
  }

  lemma InsertKeepsSpaced(levels: seq<Level>, l: Level)
    requires Spaced(levels) && forall k | 0 <= k < |levels| :: !Near(levels[k].price, l.price)
    ensures Spaced(Insert(levels, InsertPosDesc(levels, l.price), l))
  {
    var p := InsertPosDesc(levels, l.price);
    var r := Insert(levels, p, l);
    forall i, j | 0 <= i < j < |r|
      ensures r[i].price >= r[j].price + PRICE_EPS
    {
      if i == p {
        assert r[j] == levels[j - 1] && levels[p].price >= levels[j - 1].price && !Near(levels[j - 1].price, l.price);
      } else if j == p {
        assert r[i] == levels[i] && !Near(levels[i].price, l.price);
      }
    }
  }

  lemma EditsKeepOrder(levels: seq<Level>, i: nat, vol: real, maxLevels: nat)
    requires WellKept(levels, maxLevels) && i < |levels|
    ensures WellKept(Remove(levels, i), maxLevels)
    ensures vol > 0.0 ==> WellKept(levels[i := Level(levels[i].price, vol)], maxLevels)
  {
  }

  lemma PopKeepsOrder(levels: seq<Level>, maxLevels: nat)
    requires Spaced(levels) && PositiveVolumes(levels) && |levels| <= maxLevels + 1
    ensures WellKept(PopAbove(levels, maxLevels), maxLevels)
  {
  }

  lemma InsertedAt(levels: seq<Level>, p: nat, l: Level, i: nat)
    requires p <= |levels| && i <= |levels|
    ensures Insert(levels, p, l)[i] == if i < p then levels[i] else if i == p then l else levels[i - 1]
  {
  }

  lemma InsertKeepsOrder(levels: seq<Level>, l: Level, maxLevels: nat)
    requires WellKept(levels, maxLevels) && l.vol > 0.0
    requires forall k | 0 <= k < |levels| :: !Near(levels[k].price, l.price)
    ensures WellKept(PopAbove(Insert(levels, InsertPosDesc(levels, l.price), l), maxLevels), maxLevels)
  {
    var p := InsertPosDesc(levels, l.price);
    var more := Insert(levels, p, l);
    InsertKeepsSpaced(levels, l);
    forall i | 0 <= i < |more|
      ensures more[i].vol > 0.0
    {
      InsertedAt(levels, p, l, i);
    }
    PopKeepsOrder(more, maxLevels);
  }

  lemma UpdateKeepsOrder(levels: seq<Level>, l: Level, maxLevels: nat)
    requires WellKept(levels, maxLevels) && l.vol >= 0.0
    ensures WellKept(UpdateDesc(levels, l, maxLevels), maxLevels)
  {
    var i := FindLevel(levels, l.price);
    if i < |levels| {
      EditsKeepOrder(levels, i, l.vol, maxLevels);
    } else if l.vol > 0.0 {
      InsertKeepsOrder(levels, l, maxLevels);
    }
  }

  lemma {:induction false} DeltaKeepsOrder(levels: seq<Level>, delta: seq<Level>, maxLevels: nat)
    requires WellKept(levels, maxLevels) && NonNegativeVolumes(delta)
    ensures WellKept(DeltaDesc(levels, delta, maxLevels), maxLevels)
    decreases |delta|
  {
    if delta != [] {
      UpdateKeepsOrder(levels, delta[0], maxLevels);
      DeltaKeepsOrder(UpdateDesc(levels, delta[0], maxLevels), delta[1..], maxLevels);
    }
  }

  lemma InsertMembers(levels: seq<Level>, p: nat, l: Level, x: Level)
    requires p <= |levels|
    ensures x in Insert(levels, p, l) <==> x == l || x in levels
  {
    var r := Insert(levels, p, l);
    assert r[p] == l;
    if x in levels {
      var k :| 0 <= k < |levels| && levels[k] == x;
      assert r[if k < p then k else k + 1] == x;
    }
  }

  lemma {:induction false} SortSameMembers(levels: seq<Level>, x: Level)
    ensures x in SortDesc(levels) <==> x in levels
  {
    if levels != [] {
      var n := |levels| - 1;
      var sorted := SortDesc(levels[..n]);
      SortSameMembers(levels[..n], x);
      InsertMembers(sorted, InsertPosDesc(sorted, levels[n].price), levels[n], x);
      assert levels == levels[..n] + [levels[n]];
    }
  }

  lemma {:induction false} SortOrders(levels: seq<Level>)
    requires Separated(levels)
    ensures Spaced(SortDesc(levels))
  {
    if levels != [] {
      var n := |levels| - 1;
      var sorted := SortDesc(levels[..n]);
      SortOrders(levels[..n]);
      forall k | 0 <= k < |sorted|
        ensures !Near(sorted[k].price, levels[n].price)
      {
        SortSameMembers(levels[..n], sorted[k]);
        var j :| 0 <= j < n && levels[j] == sorted[k];
      }
      InsertKeepsSpaced(sorted, levels[n]);
    }
  }

  lemma SnapshotOrders(levels: seq<Level>, maxLevels: nat)
    requires Separated(levels) && PositiveVolumes(levels)
    ensures WellKept(SnapshotDesc(levels, maxLevels), maxLevels)
  {
    var kept := if |levels| <= maxLevels then levels else levels[..maxLevels];
    SortOrders(kept);
    forall i | 0 <= i < |kept|
      ensures SortDesc(kept)[i].vol > 0.0
    {
      SortSameMembers(kept, SortDesc(kept)[i]);
    }
  }
}
