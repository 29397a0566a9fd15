/** A sorted side is determined by its members, so results do not depend on the order of input:
    deltas that cannot overflow commute and repeat harmlessly, and sorting a snapshot equals
    inserting its levels one by one. */
module BookCanonical {
  import opened BookSide
  import opened BookTruth
  import opened MarketData

  lemma {:induction false} SpacedUnique(a: seq<Level>, b: seq<Level>)
    requires Spaced(a) && Spaced(b) && forall x :: x in a <==> x in b
    ensures a == b
  {
    if a != [] { assert a[0] in b; }
    if b != [] { assert b[0] in a; }
    if a != [] {
      assert a[0] == b[0];
      forall x
        ensures x in a[1..] <==> x in b[1..]
      {
        assert x in a[1..] <==> x in a && x != a[0];
        assert x in b[1..] <==> x in b && x != b[0];
      }
      SpacedUnique(a[1..], b[1..]);
      assert a == [a[0]] + a[1..] && b == [b[0]] + b[1..];
    }
  }

  function Prices(ls: seq<Level>): set<real> {
    set l | l in ls :: l.price
  }

  function InsertedPrices(delta: seq<Level>): set<real> {
    set l | l in delta && l.vol > 0.0 :: l.price
  }

  /** Every price the book would hold if nothing were removed fits within the limit. */
  predicate CannotOverflow(levels: seq<Level>, delta: seq<Level>, n: nat) {
    |Prices(levels) + InsertedPrices(delta)| <= n
  }

  lemma {:induction false} PricesSize(levels: seq<Level>)
    requires Spaced(levels)
    ensures |Prices(levels)| == |levels|
  {
    if levels != [] {
      PricesSize(levels[1..]);
      assert forall x :: x in levels <==> x == levels[0] || x in levels[1..];
      assert Prices(levels) == {levels[0].price} + Prices(levels[1..]);
      assert forall x | x in levels[1..] :: x.price < levels[0].price;
    }
  }

  lemma UpdateFits(levels: seq<Level>, l: Level, n: nat, grid: iset<real>, cap: set<real>)
    requires WellKept(levels, n) && Gridded(grid) && OnGrid(levels, grid) && l.price in grid && l.vol >= 0.0
    requires Prices(levels) <= cap && |cap| <= n && (l.vol > 0.0 ==> l.price in cap)
    ensures FrontierStep(None, levels, l, n) == None
    ensures Prices(UpdateDesc(levels, l, n)) <= cap && OnGrid(UpdateDesc(levels, l, n), grid)
    ensures forall x :: x in UpdateDesc(levels, l, n) <==>
                          if x.price == l.price then x == l && l.vol > 0.0 else x in levels
  {
    var levels' := UpdateDesc(levels, l, n);
    FindOnGrid(levels, l.price, grid);
    if FindLevel(levels, l.price) == |levels| && l.vol > 0.0 {
      PricesSize(levels);
      assert l.price !in Prices(levels);
      SubsetSize(Prices(levels) + {l.price}, cap);
    }
    forall x
      ensures x in levels' <==> if x.price == l.price then x == l && l.vol > 0.0 else x in levels
    {
      UpdateMembers(levels, l, None, n, grid, x);
    }
  }

  predicate Mentions(delta: seq<Level>, p: real) {
    exists i :: 0 <= i < |delta| && delta[i].price == p
  }

  /** What is in the book after a delta that cannot overflow it: at the prices of the delta exactly
      its positive entries, at all other prices what was there before. */
  ghost predicate DeltaMember(levels: seq<Level>, delta: seq<Level>, x: Level) {
    if Mentions(delta, x.price) then x in delta && x.vol > 0.0 else x in levels
  }

  lemma {:induction false} DeltaMembers(levels: seq<Level>, delta: seq<Level>, n: nat, grid: iset<real>, cap: set<real>,
                                        x: Level)
    requires WellKept(levels, n) && Gridded(grid) && OnGrid(levels, grid) && OnGrid(delta, grid)
    requires Separated(delta) && NonNegativeVolumes(delta)
    requires Prices(levels) <= cap && InsertedPrices(delta) <= cap && |cap| <= n
    ensures x in DeltaDesc(levels, delta, n) <==> DeltaMember(levels, delta, x)
    decreases |delta|
  {
    if delta != [] {
      var l, rest := delta[0], delta[1..];
      assert InsertedPrices(rest) <= InsertedPrices(delta);
      assert l in delta && (l.vol > 0.0 ==> l.price in InsertedPrices(delta));
      UpdateFits(levels, l, n, grid, cap);
      UpdateKeepsOrder(levels, l, n);
      DeltaMembers(UpdateDesc(levels, l, n), rest, n, grid, cap, x);
      assert x in delta <==> x == l || x in rest;
      MentionsSplit(delta, x.price);
      assert !Mentions(rest, l.price);
    }
  }

  lemma MentionsSplit(delta: seq<Level>, p: real)
    requires delta != []
    ensures Mentions(delta, p) <==> delta[0].price == p || Mentions(delta[1..], p)
  {
    if Mentions(delta, p) && delta[0].price != p {
      var i :| 0 <= i < |delta| && delta[i].price == p;
      assert delta[1..][i - 1].price == p;
    }
    if Mentions(delta[1..], p) {
      var i :| 0 <= i < |delta| - 1 && delta[1..][i].price == p;
      assert delta[i + 1].price == p;
    }
  }

  lemma {:induction false} CountOnce(d: seq<Level>, x: Level)
    requires Separated(d)
    ensures multiset(d)[x] <= 1
  {
    if d != [] {
      CountOnce(d[1..], x);
      assert d == [d[0]] + d[1..];
      assert forall i | 1 <= i < |d| :: d[i] != d[0];
    }
  }

  lemma CountTwice(d: seq<Level>, i: nat, j: nat)
    requires i < j < |d| && d[i] == d[j]
    ensures multiset(d)[d[i]] >= 2
  {
    assert d == d[..i] + [d[i]] + d[i + 1..j] + [d[j]] + d[j + 1..];
  }

  lemma PermutationSeparated(a: seq<Level>, b: seq<Level>)
    requires Separated(a) && multiset(a) == multiset(b)
    ensures Separated(b)
  {
    forall i, j | 0 <= i < j < |b|
      ensures !Near(b[i].price, b[j].price)
    {
      CountOnce(a, b[i]);
      if b[i] == b[j] {
        CountTwice(b, i, j);
      } else {
        assert b[i] in multiset(b) && b[j] in multiset(b);
        assert b[i] in a && b[j] in a;
      }
    }
  }

  /** A delta with distinct prices that cannot overflow the book gives the same result in every order. */
  lemma DeltaOrderIrrelevant(levels: seq<Level>, a: seq<Level>, b: seq<Level>, n: nat, grid: iset<real>)
    requires WellKept(levels, n) && Gridded(grid) && OnGrid(levels, grid) && OnGrid(a, grid)
    requires Separated(a) && NonNegativeVolumes(a) && CannotOverflow(levels, a, n)
    requires multiset(a) == multiset(b)
    ensures DeltaDesc(levels, a, n) == DeltaDesc(levels, b, n)
  {
    SamePermutation(a, b, grid);
    var cap := Prices(levels) + InsertedPrices(a);
    DeltaKeepsOrder(levels, a, n);
    DeltaKeepsOrder(levels, b, n);
    forall x
      ensures x in DeltaDesc(levels, a, n) <==> x in DeltaDesc(levels, b, n)
    {
      DeltaMembers(levels, a, n, grid, cap, x);
      DeltaMembers(levels, b, n, grid, cap, x);
      assert x in a <==> x in b;
      assert Mentions(a, x.price) <==> Mentions(b, x.price);
    }
    SpacedUnique(DeltaDesc(levels, a, n), DeltaDesc(levels, b, n));
  }

  lemma SamePermutation(a: seq<Level>, b: seq<Level>, grid: iset<real>)
    requires Separated(a) && NonNegativeVolumes(a) && OnGrid(a, grid) && multiset(a) == multiset(b)
    ensures Separated(b) && NonNegativeVolumes(b) && OnGrid(b, grid)
    ensures (forall x :: x in a <==> x in b) && InsertedPrices(a) == InsertedPrices(b)
    ensures forall p :: Mentions(a, p) <==> Mentions(b, p)
  {
    PermutationSeparated(a, b);
    forall x
      ensures x in a <==> x in b
    {
      assert x in a <==> x in multiset(a);
      assert x in b <==> x in multiset(b);
    }
    forall i | 0 <= i < |b|
      ensures b[i].vol >= 0.0 && b[i].price in grid
    {
      assert b[i] in a;
    }
    forall p
      ensures Mentions(a, p) <==> Mentions(b, p)
    {
      if i :| 0 <= i < |a| && a[i].price == p { assert a[i] in b; }
      if i :| 0 <= i < |b| && b[i].price == p { assert b[i] in a; }
    }
  }

  /** Applying it twice equals applying it once. */
  lemma DeltaIdempotent(levels: seq<Level>, d: seq<Level>, n: nat, grid: iset<real>)
    requires WellKept(levels, n) && Gridded(grid) && OnGrid(levels, grid) && OnGrid(d, grid)
    requires Separated(d) && NonNegativeVolumes(d) && CannotOverflow(levels, d, n)
    ensures DeltaDesc(DeltaDesc(levels, d, n), d, n) == DeltaDesc(levels, d, n)
  {
    var once := DeltaDesc(levels, d, n);
    var cap := Prices(levels) + InsertedPrices(d);
    DeltaKeepsOrder(levels, d, n);
    DeltaKeepsOrder(once, d, n);
    forall x
      ensures x in once <==> DeltaMember(levels, d, x)
    {
      DeltaMembers(levels, d, n, grid, cap, x);
    }
    forall i | 0 <= i < |once|
      ensures once[i].price in cap && once[i].price in grid
    {
      assert DeltaMember(levels, d, once[i]);
    }
    forall x
      ensures x in DeltaDesc(once, d, n) <==> x in once
    {
      DeltaMembers(once, d, n, grid, cap, x);
    }
    SpacedUnique(DeltaDesc(once, d, n), once);
  }

  lemma ReplayedMembers(ls: seq<Level>, n: nat, x: Level)
    requires Separated(ls) && PositiveVolumes(ls) && |ls| <= n
    ensures x in SnapshotDesc(ls, n) <==> x in DeltaDesc([], ls, n)
  {
    ListSize(ls);
    SortSameMembers(ls, x);
    DeltaMembers([], ls, n, iset l | l in ls :: l.price, InsertedPrices(ls), x);
    if x in ls {
      var i :| 0 <= i < |ls| && ls[i] == x;
      assert Mentions(ls, x.price);
    }
  }

  /** Sorting a snapshot and inserting its levels one by one into an empty book give the same book,
      whatever the order in which the levels are listed. */
  lemma SnapshotEqualsReplay(ls: seq<Level>, n: nat)
    requires Separated(ls) && PositiveVolumes(ls) && |ls| <= n
    ensures SnapshotDesc(ls, n) == DeltaDesc([], ls, n)
  {
    SnapshotOrders(ls, n);
    DeltaKeepsOrder([], ls, n);
    forall x
      ensures x in SnapshotDesc(ls, n) <==> x in DeltaDesc([], ls, n)
    {
      ReplayedMembers(ls, n, x);
    }
    SpacedUnique(SnapshotDesc(ls, n), DeltaDesc([], ls, n));
  }

  lemma {:induction false} ListSize(ls: seq<Level>)
    ensures |InsertedPrices(ls)| <= |ls|
  {
    if ls != [] {
      ListSize(ls[1..]);
      assert forall x :: x in ls <==> x == ls[0] || x in ls[1..];
      assert InsertedPrices(ls) <= {ls[0].price} + InsertedPrices(ls[1..]);
      SubsetSize(InsertedPrices(ls), {ls[0].price} + InsertedPrices(ls[1..]));
    }
  }

  // ---------------------------------------------------------------------------
  // Snapshots that are too long
  // ---------------------------------------------------------------------------

  lemma SortedInTwo(ls: seq<Level>, n: nat, i: nat, j: nat)
    requires Separated(ls) && KeepsBest(ls, n) && n <= |ls| && i < n && j < |ls| - n
    ensures SortDesc(ls[..n])[i].price >= SortDesc(ls[n..])[j].price + PRICE_EPS
  {
    var x, y := SortDesc(ls[..n])[i], SortDesc(ls[n..])[j];
    SortSameMembers(ls[..n], x);
    SortSameMembers(ls[n..], y);
    var p :| 0 <= p < n && ls[..n][p] == x;
    var q :| 0 <= q < |ls| - n && ls[n..][q] == y;
    assert ls[p] == x && ls[n + q] == y;
  }

  lemma SpacedConcat(a: seq<Level>, b: seq<Level>)
    requires Spaced(a) && Spaced(b)
    requires forall i, j | 0 <= i < |a| && 0 <= j < |b| :: a[i].price >= b[j].price + PRICE_EPS
    ensures Spaced(a + b)
  {
  }

  lemma SpacedInTwo(ls: seq<Level>, n: nat)
    requires Separated(ls) && KeepsBest(ls, n) && n <= |ls|
    ensures Spaced(SortDesc(ls[..n]) + SortDesc(ls[n..]))
  {
    var a, b := SortDesc(ls[..n]), SortDesc(ls[n..]);
    SortOrders(ls[..n]);
    SortOrders(ls[n..]);
    forall i, j | 0 <= i < |a| && 0 <= j < |b|
      ensures a[i].price >= b[j].price + PRICE_EPS
    {
      SortedInTwo(ls, n, i, j);
    }
    SpacedConcat(a, b);
  }

  lemma MembersInTwo(ls: seq<Level>, n: nat, x: Level)
    requires n <= |ls|
    ensures x in ls <==> x in ls[..n] || x in ls[n..]
  {
    assert ls == ls[..n] + ls[n..];
  }

  lemma SortedMembersInTwo(ls: seq<Level>, n: nat, x: Level)
    requires n <= |ls|
    ensures x in SortDesc(ls) <==> x in SortDesc(ls[..n]) + SortDesc(ls[n..])
  {
    MembersInTwo(ls, n, x);
    SortSameMembers(ls, x);
    SortSameMembers(ls[..n], x);
    SortSameMembers(ls[n..], x);
  }

  /** When the levels that are kept are the best, sorting all of them sorts these first. */
  lemma BestSortFirst(ls: seq<Level>, n: nat)
    requires Separated(ls) && KeepsBest(ls, n) && n <= |ls|
    ensures SortDesc(ls) == SortDesc(ls[..n]) + SortDesc(ls[n..])
  {
    SortOrders(ls);
    SpacedInTwo(ls, n);
    SameMembersInTwo(ls, n);
    SpacedUnique(SortDesc(ls), SortDesc(ls[..n]) + SortDesc(ls[n..]));
  }

  lemma SameMembersInTwo(ls: seq<Level>, n: nat)
    requires n <= |ls|
    ensures forall x :: x in SortDesc(ls) <==> x in SortDesc(ls[..n]) + SortDesc(ls[n..])
  {
    forall x
      ensures x in SortDesc(ls) <==> x in SortDesc(ls[..n]) + SortDesc(ls[n..])
    {
      SortedMembersInTwo(ls, n, x);
    }
  }

  lemma NotAmongFirst(ls: seq<Level>, n: nat, j: nat)
    requires Separated(ls) && n <= j < |ls|
    ensures ls[j] !in SortDesc(ls[..n])
  {
    SortSameMembers(ls[..n], ls[j]);
    forall k | 0 <= k < n
      ensures ls[..n][k] != ls[j]
    {
      assert !Near(ls[k].price, ls[j].price);
    }
  }

  lemma TakenIsMember(all: seq<Level>, n: nat, q: nat)
    requires n <= |all| && q < |all|
    ensures q < n ==> all[q] in all[..n]
  {
    if q < n { assert all[..n][q] == all[q]; }
  }

  lemma InFirst(all: seq<Level>, n: nat, x: Level) returns (q: nat)
    requires x in all && n <= |all|
    ensures q < |all| && all[q] == x && (x !in all[..n] ==> q >= n) && (x in all[..n] ==> q < n)
  {
    if x in all[..n] {
      q :| q < n && all[..n][q] == x;
    } else {
      q :| q < |all| && all[q] == x;
      TakenIsMember(all, n, q);
    }
  }

  lemma KeptIsBetter(ls: seq<Level>, n: nat, i: nat, j: nat)
    requires Separated(ls) && i < n <= j < |ls| && SortDesc(ls[..n]) == SortDesc(ls)[..n]
    ensures ls[i].price > ls[j].price
  {
    SortOrders(ls);
    assert ls[..n][i] == ls[i];
    SortSameMembers(ls[..n], ls[i]);
    SortSameMembers(ls, ls[i]);
    SortSameMembers(ls, ls[j]);
    NotAmongFirst(ls, n, j);
    var p := InFirst(SortDesc(ls), n, ls[i]);
    var q := InFirst(SortDesc(ls), n, ls[j]);
  }

  /** A snapshot is cut before it is sorted. It is what sorting it and then trimming it would give if
      and only if the levels listed first are the best. */
  lemma SnapshotTrimsWorst(ls: seq<Level>, n: nat)
    requires Separated(ls)
    ensures SnapshotDesc(ls, n) == Top(SortDesc(ls), n) <==> KeepsBest(ls, n)
  {
    if |ls| > n {
      if KeepsBest(ls, n) {
        BestSortFirst(ls, n);
      }
      if SortDesc(ls[..n]) == SortDesc(ls)[..n] {
        forall i, j | 0 <= i < n <= j < |ls|
          ensures ls[i].price > ls[j].price
        {
          KeptIsBetter(ls, n, i, j);
        }
      }
    }
  }

  lemma SnapshotLosesBest() returns (ls: seq<Level>)
    ensures Separated(ls) && PositiveVolumes(ls) && |ls| == 2
    ensures SnapshotDesc(ls, 1) == [Level(1.0, 1.0)] && Top(SortDesc(ls), 1) == [Level(2.0, 1.0)]
  {
    ls := [Level(1.0, 1.0), Level(2.0, 1.0)];
    var one := ls[..1];
    assert one[..0] == [] && SortDesc(one[..0]) == [];
    assert SortDesc(one) == [ls[0]];
    assert ls[..1] == one;
    assert InsertPosDesc([ls[0]], ls[1].price) == 0;
    assert SortDesc(ls) == [ls[1], ls[0]];
  }
}
