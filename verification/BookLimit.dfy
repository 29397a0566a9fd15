/** The bound on removals is exact: one removal more and some run shows a wrong top of the book. */
module BookLimit {
  import opened BookSide
  import opened BookTruth

  ghost const INTEGER_GRID: iset<real> := iset i: int | true :: i as real

  lemma IntegerGridIsGridded()
    ensures Gridded(INTEGER_GRID)
  {
    forall p, q | p in INTEGER_GRID && q in INTEGER_GRID && p != q
      ensures !Near(p, q)
    {
      var i: int :| p == i as real;
      var j: int :| q == j as real;
      assert p - q == (i - j) as real;
    }
  }

  ghost predicate Feed(ls: seq<Level>) {
    OnGrid(ls, INTEGER_GRID) && NonNegativeVolumes(ls)
  }

  lemma {:induction false} TrackDeltaConcat(t: Track, a: seq<Level>, b: seq<Level>, n: nat)
    ensures TrackDelta(t, a + b, n) == TrackDelta(TrackDelta(t, a, n), b, n)
    decreases |a|
  {
    if a == [] {
      assert a + b == b;
    } else {
      assert (a + b)[1..] == a[1..] + b;
      TrackDeltaConcat(TrackUpdate(t, a[0], n), a[1..], b, n);
    }
  }

  lemma TrackDeltaFirst(t: Track, l: Level, rest: seq<Level>, n: nat)
    ensures TrackDelta(t, [l] + rest, n) == TrackDelta(TrackUpdate(t, l, n), rest, n)
  {
    assert ([l] + rest)[1..] == rest;
  }

  function At(p: int, v: real): Level {
    Level(p as real, v)
  }

  /** Adding a level and taking it away again, `j` times. */
  lemma {:induction false} Churn(t: Track, j: nat, n: nat) returns (ls: seq<Level>)
    requires t.levels == [] && n > 0
    ensures Feed(ls)
    ensures TrackDelta(t, ls, n).levels == [] && TrackDelta(t, ls, n).removals == t.removals + j
    decreases j
  {
    if j == 0 {
      ls := [];
    } else {
      var t1 := TrackUpdate(t, At(1, 1.0), n);
      assert t1.levels == [At(1, 1.0)];
      var t2 := TrackUpdate(t1, At(1, 0.0), n);
      assert t2.levels == [];
      var rest := Churn(t2, j - 1, n);
      TrackDeltaFirst(t1, At(1, 0.0), rest, n);
      TrackDeltaFirst(t, At(1, 1.0), [At(1, 0.0)] + rest, n);
      ls := [At(1, 1.0)] + ([At(1, 0.0)] + rest);
    }
  }

  lemma {:induction false} AppendsBelow(levels: seq<Level>, p: int)
    requires forall i | 0 <= i < |levels| :: levels[i].price >= (p + 1) as real
    ensures FindLevel(levels, p as real) == |levels| && InsertPosDesc(levels, p as real) == |levels|
  {
    if levels != [] {
      AppendsBelow(levels[1..], p);
      assert levels[0].price - p as real >= 1.0;
    }
  }

  /** Levels `p`, `p - 1`, ..., 1 below everything held. */
  lemma {:induction false} Fill(t: Track, p: nat, n: nat) returns (ls: seq<Level>)
    requires |t.levels| + p <= n && forall i | 0 <= i < |t.levels| :: t.levels[i].price >= (p + 1) as real
    ensures Feed(ls)
    ensures var t' := TrackDelta(t, ls, n);
            && |t'.levels| == |t.levels| + p && t'.removals == t.removals
            && forall i | 0 <= i < |t'.levels| :: t'.levels[i].price >= 1.0
    decreases p
  {
    if p == 0 {
      ls := [];
    } else {
      AppendsBelow(t.levels, p);
      var t1 := TrackUpdate(t, At(p, 1.0), n);
      assert t1.levels == t.levels + [At(p, 1.0)];
      var rest := Fill(t1, p - 1, n);
      TrackDeltaFirst(t, At(p, 1.0), rest, n);
      ls := [At(p, 1.0)] + rest;
    }
  }

  /** Taking away the best `m` levels; a quote at 0 is not among them. */
  lemma {:induction false} Drain(t: Track, m: nat, n: nat) returns (ls: seq<Level>)
    requires m <= |t.levels| && 0.0 in t.truth && OnGrid(t.levels, INTEGER_GRID)
    requires forall i | 0 <= i < |t.levels| :: t.levels[i].price >= 1.0
    ensures Feed(ls)
    ensures var t' := TrackDelta(t, ls, n);
            && t'.levels == t.levels[m..] && t'.removals == t.removals + m && 0.0 in t'.truth
    decreases m
  {
    if m == 0 {
      ls := [];
    } else {
      var l := Level(t.levels[0].price, 0.0);
      var t1 := TrackUpdate(t, l, n);
      assert t1.levels == t.levels[1..];
      var rest := Drain(t1, m - 1, n);
      TrackDeltaFirst(t, l, rest, n);
      ls := [l] + rest;
    }
  }

  /** A quote worse than a full book changes nothing but the map. */
  lemma PushedOut(t: Track, n: nat)
    requires |t.levels| == n && forall i | 0 <= i < n :: t.levels[i].price >= 1.0
    ensures var t' := TrackDelta(t, [At(0, 1.0)], n);
            t'.levels == t.levels && t'.removals == t.removals && 0.0 in t'.truth
  {
    AppendsBelow(t.levels, 0);
    assert TrackDelta(t, [At(0, 1.0)], n) == TrackUpdate(t, At(0, 1.0), n);
    assert Insert(t.levels, n, At(0, 1.0))[..n] == t.levels;
  }

  /** A book filled to the limit after `j` removals, with one more quote pushed out. */
  lemma Overfull(n: nat, j: nat) returns (ls: seq<Level>)
    requires n > 0
    ensures Feed(ls)
    ensures var t := TrackDelta(EMPTY_TRACK, ls, n);
            && t.removals == j && |t.levels| == n && 0.0 in t.truth
            && forall i | 0 <= i < |t.levels| :: t.levels[i].price >= 1.0
  {
    var a := Churn(EMPTY_TRACK, j, n);
    var t1 := TrackDelta(EMPTY_TRACK, a, n);
    var b := Fill(t1, n, n);
    PushedOut(TrackDelta(t1, b, n), n);
    TrackDeltaConcat(t1, b, [At(0, 1.0)], n);
    TrackDeltaConcat(EMPTY_TRACK, a, b + [At(0, 1.0)], n);
    ls := a + (b + [At(0, 1.0)]);
  }

  /** A book filled to the limit, one more quote pushed out, and `r` removals in all. */
  lemma Drained(n: nat, r: nat) returns (ls: seq<Level>)
    requires n > 0
    ensures Feed(ls)
    ensures var t := TrackDelta(EMPTY_TRACK, ls, n);
            && t.removals == r && |t.levels| == (if r <= n then n - r else 0) && 0.0 in t.truth
            && forall i | 0 <= i < |t.levels| :: t.levels[i].price >= 1.0
  {
    var a := Overfull(n, if r <= n then 0 else r - n);
    var t := TrackDelta(EMPTY_TRACK, a, n);
    TrackDeltaOnGrid(EMPTY_TRACK, a, n);
    var c := Drain(t, if r <= n then r else n, n);
    TrackDeltaConcat(EMPTY_TRACK, a, c, n);
    ls := a + c;
  }

  lemma {:induction false} TrackDeltaOnGrid(t: Track, ls: seq<Level>, n: nat)
    requires OnGrid(t.levels, INTEGER_GRID) && Feed(ls)
    ensures OnGrid(TrackDelta(t, ls, n).levels, INTEGER_GRID)
    decreases |ls|
  {
    if ls != [] {
      UpdateOnGrid(t.levels, ls[0], n);
      TrackDeltaOnGrid(TrackUpdate(t, ls[0], n), ls[1..], n);
    }
  }

  lemma UpdateOnGrid(levels: seq<Level>, l: Level, n: nat)
    requires OnGrid(levels, INTEGER_GRID) && l.price in INTEGER_GRID
    ensures OnGrid(UpdateDesc(levels, l, n), INTEGER_GRID)
  {
    var levels' := UpdateDesc(levels, l, n);
    var p := InsertPosDesc(levels, l.price);
    forall i | 0 <= i < |levels'|
      ensures levels'[i].price in INTEGER_GRID
    {
      if FindLevel(levels, l.price) == |levels| && l.vol > 0.0 {
        InsertedAt(levels, p, l, i);
      }
    }
  }

  lemma MissingQuote(t: Track, k: nat)
    requires |t.levels| < k && 0.0 in t.truth && forall i | 0 <= i < |t.levels| :: t.levels[i].price >= 1.0
    ensures !IsTop(Top(t.levels, k), t.truth, k)
  {
    var top := Top(t.levels, k);
    assert top == t.levels;
    if Spaced(top) && HeldIsTrue(top, t.truth) {
      var ps := PriceSet(top);
      forall p | p in ps + {0.0}
        ensures p in t.truth.Keys
      {
        if p in ps {
          var i :| 0 <= i < |top| && top[i].price == p;
        }
      }
      assert 0.0 !in ps;
      SubsetSize(ps + {0.0}, t.truth.Keys);
    }
  }

  /** A run the exchange may send, after which `r` levels have been removed. */
  ghost predicate RunWith(msgs: seq<SideMsg>, grid: iset<real>, n: nat, r: nat) {
    && Gridded(grid)
    && (forall m | m in msgs :: Accepted(m, grid) && (m.Snapshot? ==> KeepsBest(m.levels, n)))
    && TrackRun(EMPTY_TRACK, msgs, n).removals == r
  }

  /** The best `k` levels of the book are the best `k` of the unbounded map after every run with `r`
      removals, if and only if `r + k <= n`. */
  lemma TopIsTrueExactly(n: nat, k: nat, r: nat)
    requires 1 <= k <= n
    ensures (forall msgs, grid | RunWith(msgs, grid, n, r) ::
               IsTop(Top(SideRun([], msgs, n), k), TrackRun(EMPTY_TRACK, msgs, n).truth, k))
       <==> r + k <= n
  {
    if r + k <= n {
      forall msgs, grid | RunWith(msgs, grid, n, r)
        ensures IsTop(Top(SideRun([], msgs, n), k), TrackRun(EMPTY_TRACK, msgs, n).truth, k)
      {
        TopIsTrue(msgs, grid, n, k);
      }
    } else {
      var ls := Drained(n, r);
      var msgs := [Delta(ls)];
      IntegerGridIsGridded();
      assert TrackRun(EMPTY_TRACK, msgs, n) == TrackDelta(EMPTY_TRACK, ls, n);
      TrackRunFollows(EMPTY_TRACK, msgs, n);
      assert Accepted(msgs[0], INTEGER_GRID);
      assert RunWith(msgs, INTEGER_GRID, n, r);
      MissingQuote(TrackDelta(EMPTY_TRACK, ls, n), k);
    }
  }
}
