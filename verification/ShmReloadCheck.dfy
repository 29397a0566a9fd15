/** What a reader of the ring can conclude from loading the index a second time after its copy: the
    store promises readers a consistent snapshot, and this is exactly when they get one. */
module ShmReloadCheck {
  import opened Multiples
  import opened ShmLayout
  import opened ShmProtocol

  function Filled(w: nat, x: int): (v: Value)
    ensures |v| == w && forall k | 0 <= k < w :: v[k] == x
  {
    seq(w, _ => x)
  }

  function Repeat(v: Value, m: nat): (r: seq<Value>)
    ensures |r| == m && forall i | 0 <= i < m :: r[i] == v
  {
    seq(m, _ => v)
  }

  /** A first value and then `m` times the same. */
  function OneThen(one: Value, two: Value, m: nat): (r: seq<Value>)
    ensures |r| == m + 1
  {
    [one] + Repeat(two, m)
  }

  lemma OneThenMore(one: Value, two: Value, a: nat, b: nat)
    ensures OneThen(one, two, a) + Repeat(two, b) == OneThen(one, two, a + b)
    ensures OneThen(one, two, a) + [two] == OneThen(one, two, a + 1)
  {
  }

  // ---------------------------------------------------------------------------
  // Composing runs
  // ---------------------------------------------------------------------------

  lemma {:induction false} ExecConcat(s: State, a: seq<Action>, b: seq<Action>)
    requires Shaped(s)
    ensures Exec(s, a + b) == Exec(Exec(s, a), b)
    decreases |a|
  {
    if a == [] {
      assert a + b == b;
    } else {
      assert (a + b)[1..] == a[1..] + b;
      ExecConcat(Step(s, a[0]), a[1..], b);
    }
  }

  lemma {:induction false} StoreAll(s: State) returns (acts: seq<Action>)
    requires Inv(s) && s.writer.Storing?
    ensures var t := Exec(s, acts);
            Inv(t) && t == s.(cells := t.cells, writer := Storing(s.w))
    decreases s.w - s.writer.stored
  {
    if s.writer.stored == s.w {
      acts := [];
    } else {
      var t := Step(s, StoreWord);
      StepKeepsInv(s, StoreWord);
      var rest := StoreAll(t);
      acts := [StoreWord] + rest;
    }
  }

  /** A write up to, but not including, the publication of its index. */
  lemma WriteUnpublished(s: State, v: Value) returns (acts: seq<Action>)
    requires Inv(s) && s.writer.Idle? && |v| == s.w
    ensures var t := Exec(s, acts);
            Inv(t) && t == s.(cells := t.cells, writer := Storing(s.w), written := s.written + [v])
  {
    StepKeepsInv(s, BeginWrite(v));
    var rest := StoreAll(Step(s, BeginWrite(v)));
    acts := [BeginWrite(v)] + rest;
  }

  lemma {:induction false} WriteMany(s: State, v: Value, m: nat) returns (acts: seq<Action>)
    requires Inv(s) && s.writer.Idle? && |v| == s.w
    ensures var t := Exec(s, acts);
            && Inv(t) && t.writer.Idle? && t.index == s.index + m && t.readers == s.readers
            && t.written == s.written + Repeat(v, m)
    decreases m
  {
    if m == 0 {
      acts := [];
    } else {
      var a := WriteUnpublished(s, v);
      var t := Exec(s, a);
      StepKeepsInv(t, Publish);
      var b := WriteMany(Step(t, Publish), v, m - 1);
      ExecConcat(s, a, [Publish] + b);
      acts := a + ([Publish] + b);
      assert (s.written + [v]) + Repeat(v, m - 1) == s.written + Repeat(v, m);
    }
  }

  lemma {:induction false} ReadRest(s: State, r: nat) returns (acts: seq<Action>)
    requires Inv(s) && r in s.readers && s.readers[r].loaded >= 0
    ensures var t, rd := Exec(s, acts), s.readers[r];
            && Inv(t)
            && t == s.(readers := s.readers[r := Reader(rd.loaded, rd.got + s.cells[Wrap(rd.loaded, s.n)][|rd.got|..])])
    decreases s.w - |s.readers[r].got|
  {
    var rd := s.readers[r];
    var cell := s.cells[Wrap(rd.loaded, s.n)];
    if |rd.got| == s.w {
      acts := [];
      assert rd.got + cell[|rd.got|..] == rd.got;
    } else {
      StepKeepsInv(s, ReadWord(r));
      var rest := ReadRest(Step(s, ReadWord(r)), r);
      acts := [ReadWord(r)] + rest;
      assert (rd.got + [cell[|rd.got|]]) + cell[|rd.got| + 1..] == rd.got + cell[|rd.got|..];
    }
  }

  // ---------------------------------------------------------------------------
  // A torn read, for every ring size
  // ---------------------------------------------------------------------------

  /** The first data point is written and a reader loads index 0. */
  lemma IndexLoaded(n: nat, w: nat) returns (acts: seq<Action>)
    requires n > 0 && w >= 1
    ensures var t := Exec(Init(n, w), acts);
            && Inv(t) && t.writer.Idle? && t.index == 0 && t.written == [Filled(w, 1)] && t.w == w && t.n == n
            && t.readers == map[0 := Reader(0, Filled(0, 1))]
  {
    InitInv(n, w);
    var a := WriteMany(Init(n, w), Filled(w, 1), 1);
    var s := Exec(Init(n, w), a);
    StepKeepsInv(s, LoadIndex(0));
    assert Filled(0, 1) == [];
    ExecConcat(Init(n, w), a, [LoadIndex(0)]);
    acts := a + [LoadIndex(0)];
  }

  /** The reader copies the first word. */
  lemma FirstWordRead(n: nat, w: nat) returns (acts: seq<Action>)
    requires n > 0 && w >= 2
    ensures var t := Exec(Init(n, w), acts);
            && Inv(t) && t.writer.Idle? && t.index == 0 && t.written == [Filled(w, 1)] && t.w == w && t.n == n
            && t.readers == map[0 := Reader(0, Filled(1, 1))]
  {
    var a := IndexLoaded(n, w);
    var s := Exec(Init(n, w), a);
    assert CellWord(s, 0, 0);
    StepKeepsInv(s, ReadWord(0));
    assert s.readers[0].got + [1] == Filled(1, 1);
    ExecConcat(Init(n, w), a, [ReadWord(0)]);
    acts := a + [ReadWord(0)];
  }

  lemma LappedCell(s: State, g: nat)
    requires Inv(s) && g < s.w && s.writer == Storing(s.w) && s.index == s.n - 1 && s.written[s.n] == Filled(s.w, 2)
    ensures s.cells[Wrap(0, s.n)][g..] == Filled(s.w - g, 2)
  {
    forall k: nat | k < s.w
      ensures s.cells[Wrap(0, s.n)][k] == 2
    {
      assert CellWord(s, s.n, k) && Wrap(s.n, s.n) == Wrap(0, s.n);
    }
  }

  /** The writer laps the ring and stores write `n`, unpublished. */
  lemma Lap(s: State) returns (acts: seq<Action>)
    requires Inv(s) && s.writer.Idle? && s.index == 0 && s.written == [Filled(s.w, 1)]
    ensures var t := Exec(s, acts);
            && Inv(t) && t.writer == Storing(s.w) && t.index == s.n - 1 && t.readers == s.readers && t.n == s.n
            && t.w == s.w
            && t.written == OneThen(Filled(s.w, 1), Filled(s.w, 2), s.n)
  {
    var one, two, n := Filled(s.w, 1), Filled(s.w, 2), s.n;
    var a := WriteMany(s, two, n - 1);
    var b := WriteUnpublished(Exec(s, a), two);
    assert s.written == OneThen(one, two, 0);
    OneThenMore(one, two, 0, n - 1);
    OneThenMore(one, two, n - 1, 0);
    ExecConcat(s, a, b);
    acts := a + b;
  }

  /** After the lap a reader that had copied `g` words copies the rest. */
  lemma RestReadAfterLap(s: State, g: nat) returns (acts: seq<Action>)
    requires Inv(s) && g < s.w && s.writer.Idle? && s.index == 0
    requires s.written == [Filled(s.w, 1)] && s.readers == map[0 := Reader(0, Filled(g, 1))]
    ensures var t := Exec(s, acts);
            && Inv(t) && t.writer == Storing(t.w) && t.index == s.n - 1 && t.w == s.w
            && t.readers == map[0 := Reader(0, Filled(g, 1) + Filled(s.w - g, 2))]
            && t.written == OneThen(Filled(s.w, 1), Filled(s.w, 2), s.n)
  {
    var lap := Lap(s);
    var t := Exec(s, lap);
    var rest := ReadRest(t, 0);
    assert t.written[s.n] == Filled(s.w, 2);
    LappedCell(t, g);
    ExecConcat(s, lap, rest);
    acts := lap + rest;
  }

  /** The writer publishes what it has stored and goes on until its index is `d`. */
  lemma AdvanceTo(s: State, v: Value, d: nat) returns (acts: seq<Action>)
    requires Inv(s) && s.writer == Storing(s.w) && s.index <= d && |v| == s.w
    ensures var t := Exec(s, acts);
            t.index == d && t.readers == s.readers
            && t.written == s.written + Repeat(v, if d == s.index then 0 else d - s.index - 1)
  {
    if s.index == d {
      acts := [];
    } else {
      StepKeepsInv(s, Publish);
      var rest := WriteMany(Step(s, Publish), v, d - s.index - 1);
      acts := [Publish] + rest;
    }
  }

  /** A value that differs in its first two words was written by none of these writes. */
  lemma MixIsNew(got: Value, one: Value, two: Value, m: nat)
    requires |got| >= 2 && |one| >= 2 && |two| >= 2 && got[0] != got[1] && one[0] == one[1] && two[0] == two[1]
    ensures got !in OneThen(one, two, m)
  {
  }

  /** From a reader that has loaded index 0 and copied `g` words: it is lapped, copies the rest, and the writer
      goes on to index `d`. */
  lemma Overtake(s: State, g: nat, d: nat) returns (acts: seq<Action>, more: nat)
    requires Inv(s) && g < s.w && s.writer.Idle? && s.index == 0 && d + 1 >= s.n
    requires s.written == [Filled(s.w, 1)] && s.readers == map[0 := Reader(0, Filled(g, 1))]
    ensures var t := Exec(s, acts);
            && t.index == d && t.w == s.w && t.readers == map[0 := Reader(0, Filled(g, 1) + Filled(s.w - g, 2))]
            && t.written == OneThen(Filled(s.w, 1), Filled(s.w, 2), more)
  {
    var one, two := Filled(s.w, 1), Filled(s.w, 2);
    var b := RestReadAfterLap(s, g);
    var t := Exec(s, b);
    var c := AdvanceTo(t, two, d);
    ExecConcat(s, b, c);
    acts := b + c;
    var further := if d == t.index then 0 else d - t.index - 1;
    more := s.n + further;
    OneThenMore(one, two, s.n, further);
  }

  /** For cells of two words or more and every advance of `n - 1` or more there is a run whose reader ends
      with words of two writes. */
  lemma TornRun(n: nat, w: nat, d: nat) returns (acts: seq<Action>)
    requires n > 0 && w >= 2 && d + 1 >= n
    ensures var s := Exec(Init(n, w), acts);
            Complete(s, 0) && s.index - s.readers[0].loaded == d && s.readers[0].got !in s.written
  {
    var a := FirstWordRead(n, w);
    var b, more := Overtake(Exec(Init(n, w), a), 1, d);
    ExecConcat(Init(n, w), a, b);
    acts := a + b;
    MixIsNew(Filled(1, 1) + Filled(w - 1, 2), Filled(w, 1), Filled(w, 2), more);
  }

  /** For cells of any size there is one whose reader ends with a later value than the one it asked for. */
  lemma OvertakenRun(n: nat, w: nat, d: nat) returns (acts: seq<Action>)
    requires n > 0 && w >= 1 && d + 1 >= n
    ensures var s := Exec(Init(n, w), acts);
            && Complete(s, 0) && s.index - s.readers[0].loaded == d
            && s.readers[0].loaded == 0 && s.written != [] && s.readers[0].got != s.written[0]
  {
    var a := IndexLoaded(n, w);
    var b, more := Overtake(Exec(Init(n, w), a), 0, d);
    ExecConcat(Init(n, w), a, b);
    acts := a + b;
    assert (Filled(0, 1) + Filled(w, 2))[0] == 2 && Filled(w, 1)[0] == 1;
  }

  // ---------------------------------------------------------------------------
  // The exact condition
  // ---------------------------------------------------------------------------

  /** If in this run reader `r` is done and the index has moved on by `d`, its copy is the value it asked for. */
  ghost predicate ExactAfter(n: nat, w: nat, d: nat, acts: seq<Action>, r: nat)
    requires n > 0
  {
    var s := Exec(Init(n, w), acts);
    Complete(s, r) && s.index - s.readers[r].loaded == d
    ==> s.readers[r].loaded < |s.written| && s.readers[r].got == s.written[s.readers[r].loaded]
  }

  /** A reader that loads the index again after its copy and finds it `d` further on can rely on the
      copy in every run if and only if `d + 2 <= n`. */
  lemma ReloadCheck(n: nat, w: nat, d: nat)
    requires n > 0 && w >= 1
    ensures (forall acts, r :: ExactAfter(n, w, d, acts, r)) <==> d + 2 <= n
  {
    if d + 2 <= n {
      forall acts, r
        ensures ExactAfter(n, w, d, acts, r)
      {
        ReadBeforeLapIsExact(n, w, acts, r);
      }
    } else {
      var acts := OvertakenRun(n, w, d);
      assert !ExactAfter(n, w, d, acts, 0);
    }
  }
}
