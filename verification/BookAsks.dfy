/** What is proved about bids alone, stated for asks: through the mirror that negates prices. */
module BookAsks {
  import opened BookSide
  import opened BookTruth
  import opened BookCanonical

  function Neg(p: real): real {
    -p
  }

  ghost function MirrorGrid(grid: iset<real>): iset<real> {
    iset p | Neg(p) in grid
  }

  lemma MirrorFeed(ls: seq<Level>, grid: iset<real>)
    requires Gridded(grid)
    ensures Gridded(MirrorGrid(grid)) && (OnGrid(ls, grid) ==> OnGrid(Mirror(ls), MirrorGrid(grid)))
    ensures Separated(Mirror(ls)) <==> Separated(ls)
    ensures NonNegativeVolumes(ls) ==> NonNegativeVolumes(Mirror(ls))
    ensures PositiveVolumes(ls) ==> PositiveVolumes(Mirror(ls))
  {
    forall p, q | p in MirrorGrid(grid) && q in MirrorGrid(grid) && p != q
      ensures !Near(p, q)
    {
      assert !Near(Neg(p), Neg(q));
    }
    MirrorSeparated(ls);
  }

  lemma MirrorSeparated(ls: seq<Level>)
    ensures Separated(Mirror(ls)) <==> Separated(ls)
  {
    var ms := Mirror(ls);
    assert forall i, j | 0 <= i < j < |ls| :: Near(ms[i].price, ms[j].price) <==> Near(ls[i].price, ls[j].price);
  }

  // ---------------------------------------------------------------------------
  // The same members
  // ---------------------------------------------------------------------------

  function Negated(s: set<real>): set<real> {
    set p | p in s :: Neg(p)
  }

  lemma EmptyOrNot(s: set<real>)
    ensures s == {} || exists p: real :: p in s
  {
    if forall p: real :: p !in s {
      assert s == {};
    }
  }

  lemma NegatedMore(s: set<real>, p: real)
    requires p !in s
    ensures Negated(s + {p}) == Negated(s) + {Neg(p)} && Neg(p) !in Negated(s)
  {
  }

  lemma {:induction false} NegatedSize(s: set<real>)
    ensures |Negated(s)| == |s|
  {
    if s != {} {
      EmptyOrNot(s);
      var p: real :| p in s;
      NegatedSize(s - {p});
      assert s == (s - {p}) + {p};
      NegatedMore(s - {p}, p);
    }
  }

  lemma MirrorMember(ls: seq<Level>, x: Level)
    ensures x in Mirror(ls) <==> MirrorLevel(x) in ls
  {
    if MirrorLevel(x) in ls {
      var i :| 0 <= i < |ls| && ls[i] == MirrorLevel(x);
      assert Mirror(ls)[i] == x;
    }
  }

  lemma MirrorPrices(ls: seq<Level>)
    ensures Prices(Mirror(ls)) == Negated(Prices(ls)) && InsertedPrices(Mirror(ls)) == Negated(InsertedPrices(ls))
  {
    forall p
      ensures p in Prices(Mirror(ls)) <==> p in Negated(Prices(ls))
      ensures p in InsertedPrices(Mirror(ls)) <==> p in Negated(InsertedPrices(ls))
    {
      MirrorPrice(ls, p);
      MirrorInsertedPrice(ls, p);
    }
  }

  lemma MirrorPrice(ls: seq<Level>, p: real)
    ensures p in Prices(Mirror(ls)) <==> p in Negated(Prices(ls))
  {
    if p in Prices(Mirror(ls)) {
      var l :| l in Mirror(ls) && l.price == p;
      MirrorMember(ls, l);
      assert Neg(p) in Prices(ls) && Neg(Neg(p)) == p;
    }
    if p in Negated(Prices(ls)) {
      var l :| l in ls && Neg(l.price) == p;
      MirrorMember(ls, MirrorLevel(l));
    }
  }

  lemma MirrorInsertedPrice(ls: seq<Level>, p: real)
    ensures p in InsertedPrices(Mirror(ls)) <==> p in Negated(InsertedPrices(ls))
  {
    if p in InsertedPrices(Mirror(ls)) {
      var l :| l in Mirror(ls) && l.vol > 0.0 && l.price == p;
      MirrorMember(ls, l);
      assert Neg(p) in InsertedPrices(ls) && Neg(Neg(p)) == p;
    }
    if p in Negated(InsertedPrices(ls)) {
      var l :| l in ls && l.vol > 0.0 && Neg(l.price) == p;
      MirrorMember(ls, MirrorLevel(l));
    }
  }

  lemma MirrorCannotOverflow(levels: seq<Level>, delta: seq<Level>, n: nat)
    ensures CannotOverflow(Mirror(levels), Mirror(delta), n) <==> CannotOverflow(levels, delta, n)
  {
    MirrorPrices(levels);
    MirrorPrices(delta);
    var all := Prices(levels) + InsertedPrices(delta);
    assert Negated(Prices(levels)) + Negated(InsertedPrices(delta)) == Negated(all);
    NegatedSize(all);
  }

  lemma {:induction false} MirrorCount(a: seq<Level>, x: Level)
    ensures multiset(Mirror(a))[MirrorLevel(x)] == multiset(a)[x]
  {
    if a != [] {
      var n := |a| - 1;
      MirrorCount(a[..n], x);
      assert a == a[..n] + [a[n]] && Mirror(a) == Mirror(a[..n]) + [MirrorLevel(a[n])];
    }
  }

  lemma MirrorPermutation(a: seq<Level>, b: seq<Level>)
    requires multiset(a) == multiset(b)
    ensures multiset(Mirror(a)) == multiset(Mirror(b))
  {
    forall y: Level
      ensures multiset(Mirror(a))[y] == multiset(Mirror(b))[y]
    {
      MirrorCount(a, MirrorLevel(y));
      MirrorCount(b, MirrorLevel(y));
      assert MirrorLevel(MirrorLevel(y)) == y;
    }
  }

  // ---------------------------------------------------------------------------
  // The results
  // ---------------------------------------------------------------------------

  /** A side whose mirror image is well kept: strictly ascending, the tolerance apart, positive, at most `n`. */
  predicate AsksKept(levels: seq<Level>, n: nat) {
    WellKept(Mirror(levels), n)
  }

  lemma MirrorEqual(a: seq<Level>, b: seq<Level>)
    ensures Mirror(a) == Mirror(b) <==> a == b
  {
    MirrorTwice(a);
    MirrorTwice(b);
  }

  /** A delta of asks with distinct prices that cannot overflow the book gives the same side in every order. */
  lemma AskDeltaOrderIrrelevant(levels: seq<Level>, a: seq<Level>, b: seq<Level>, n: nat, grid: iset<real>)
    requires AsksKept(levels, n) && Gridded(grid) && OnGrid(levels, grid) && OnGrid(a, grid)
    requires Separated(a) && NonNegativeVolumes(a) && CannotOverflow(levels, a, n)
    requires multiset(a) == multiset(b)
    ensures DeltaAsc(levels, a, n) == DeltaAsc(levels, b, n)
  {
    MirrorFeed(levels, grid);
    MirrorFeed(a, grid);
    MirrorCannotOverflow(levels, a, n);
    MirrorPermutation(a, b);
    DeltaOrderIrrelevant(Mirror(levels), Mirror(a), Mirror(b), n, MirrorGrid(grid));
    MirrorDelta(levels, a, n);
    MirrorDelta(levels, b, n);
    MirrorEqual(DeltaAsc(levels, a, n), DeltaAsc(levels, b, n));
  }

  /** Applying it twice equals applying it once. */
  lemma AskDeltaIdempotent(levels: seq<Level>, d: seq<Level>, n: nat, grid: iset<real>)
    requires AsksKept(levels, n) && Gridded(grid) && OnGrid(levels, grid) && OnGrid(d, grid)
    requires Separated(d) && NonNegativeVolumes(d) && CannotOverflow(levels, d, n)
    ensures DeltaAsc(DeltaAsc(levels, d, n), d, n) == DeltaAsc(levels, d, n)
  {
    MirrorFeed(levels, grid);
    MirrorFeed(d, grid);
    MirrorCannotOverflow(levels, d, n);
    DeltaIdempotent(Mirror(levels), Mirror(d), n, MirrorGrid(grid));
    MirrorDelta(levels, d, n);
    MirrorDelta(DeltaAsc(levels, d, n), d, n);
    MirrorEqual(DeltaAsc(DeltaAsc(levels, d, n), d, n), DeltaAsc(levels, d, n));
  }

  /** Sorting a snapshot of asks and inserting its levels one by one into an empty book give the same side. */
  lemma AskSnapshotEqualsReplay(ls: seq<Level>, n: nat)
    requires Separated(ls) && PositiveVolumes(ls) && |ls| <= n
    ensures SnapshotAsc(ls, n) == DeltaAsc([], ls, n)
  {
    MirrorSeparated(ls);
    SnapshotEqualsReplay(Mirror(ls), n);
    MirrorSnapshot(ls, n);
    MirrorDelta([], ls, n);
    assert Mirror([]) == [];
    MirrorEqual(SnapshotAsc(ls, n), DeltaAsc([], ls, n));
  }

  /** A snapshot of asks, too, is cut before it is sorted: sorting it and then trimming it would give the same
      if and only if the levels listed first are the lowest. */
  lemma AskSnapshotTrimsWorst(ls: seq<Level>, n: nat)
    requires Separated(ls)
    ensures SnapshotAsc(ls, n) == Top(SortAsc(ls), n)
            <==> forall i, j | 0 <= i < n <= j < |ls| :: ls[i].price < ls[j].price
  {
    MirrorSeparated(ls);
    SnapshotTrimsWorst(Mirror(ls), n);
    MirrorKeepsBest(ls, n);
    MirrorSnapshot(ls, n);
    MirrorTrimmed(ls, n);
    MirrorEqual(SnapshotAsc(ls, n), Top(SortAsc(ls), n));
  }

  lemma MirrorTrimmed(ls: seq<Level>, n: nat)
    ensures Mirror(Top(SortAsc(ls), n)) == Top(SortDesc(Mirror(ls)), n)
  {
    MirrorSort(ls);
    assert Mirror(Top(SortAsc(ls), n)) == Top(Mirror(SortAsc(ls)), n);
  }

  lemma MirrorKeepsBest(ls: seq<Level>, n: nat)
    ensures KeepsBest(Mirror(ls), n) <==> forall i, j | 0 <= i < n <= j < |ls| :: ls[i].price < ls[j].price
  {
    var ms := Mirror(ls);
    assert forall i, j | 0 <= i < n <= j < |ls| :: ms[i].price > ms[j].price <==> ls[i].price < ls[j].price;
  }
}
