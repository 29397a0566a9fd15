/** Readers and the single writer of one ring, interleaved word by word.

    The writer loads the published index, copies the data point into its cell one machine word at a
    time and publishes the next index. Any number of readers, in other processes, load the index
    and copy the cell out one word at a time. Nothing orders a reader's words against the writer's. */
module ShmProtocol {
  import opened Multiples
  import opened ShmLayout

  type Value = seq<int>

  /** `Storing(k)`: the index has been loaded and `k` words of the next data point have been stored. */
  datatype Writer = Idle | Storing(stored: nat)

  /** The index a reader loaded last, or -1, and the words it has copied since. */
  datatype Reader = Reader(loaded: int, got: seq<int>)

  /** A ring of `n` cells of `w` words. `written` holds every value given to `write`, the one under
      way included; no step reads it back except as the source of the words being stored. */
  datatype State = State(n: nat, w: nat, index: int, cells: seq<seq<int>>, writer: Writer,
                         written: seq<Value>, readers: map<nat, Reader>)

  datatype Action = BeginWrite(value: Value) | StoreWord | Publish | LoadIndex(reader: nat) | ReadWord(reader: nat)

  function Init(n: nat, w: nat): State {
    State(n, w, -1, seq(n, _ => seq(w, _ => 0)), Idle, [], map[])
  }

  predicate Shaped(s: State) {
    && s.n > 0 && |s.cells| == s.n && (forall c | 0 <= c < s.n :: |s.cells[c]| == s.w)
    && s.index >= -1
    && |s.written| == s.index + (if s.writer.Idle? then 1 else 2)
    && (s.writer.Storing? ==> s.writer.stored <= s.w)
    && (forall j | 0 <= j < |s.written| :: |s.written[j]| == s.w)
    && (forall r | r in s.readers :: -1 <= s.readers[r].loaded <= s.index && |s.readers[r].got| <= s.w)
  }

  predicate Enabled(s: State, a: Action) {
    match a
    case BeginWrite(value) => s.writer.Idle? && |value| == s.w
    case StoreWord => s.writer.Storing? && s.writer.stored < s.w
    case Publish => s.writer == Storing(s.w)
    case LoadIndex(r) => true
    case ReadWord(r) => r in s.readers && s.readers[r].loaded >= 0 && |s.readers[r].got| < s.w
  }

  function Step(s: State, a: Action): (t: State)
    requires Shaped(s)
    ensures Shaped(t) && t.n == s.n && t.w == s.w
    ensures s.index <= t.index && s.written <= t.written
  {
    if !Enabled(s, a) then s
    else match a
      case BeginWrite(value) =>
        s.(writer := Storing(0), written := s.written + [value])
      case StoreWord =>
        var next, k := s.index + 1, s.writer.stored;
        var c := Wrap(next, s.n);
        s.(cells := s.cells[c := s.cells[c][k := s.written[next][k]]], writer := Storing(k + 1))
      case Publish =>
        s.(index := s.index + 1, writer := Idle)
      case LoadIndex(r) =>
        s.(readers := s.readers[r := Reader(s.index, [])])
      case ReadWord(r) =>
        var rd := s.readers[r];
        var word := s.cells[Wrap(rd.loaded, s.n)][|rd.got|];
        s.(readers := s.readers[r := Reader(rd.loaded, rd.got + [word])])
  }

  /** A whole interleaving; an action that is not enabled does nothing. */
  function Exec(s: State, acts: seq<Action>): (t: State)
    requires Shaped(s)
    ensures Shaped(t) && t.n == s.n && t.w == s.w
    ensures s.index <= t.index && s.written <= t.written
    decreases |acts|
  {
    if acts == [] then s else Exec(Step(s, acts[0]), acts[1..])
  }

  // ---------------------------------------------------------------------------
  // What the cells and the readers hold
  // ---------------------------------------------------------------------------

  /** Word `k` of write `j` has been stored. */
  predicate Stored(s: State, j: int, k: nat) {
    0 <= j && (j <= s.index || (j == s.index + 1 && s.writer.Storing? && k < s.writer.stored))
  }

  /** Word `k` of a cell is that of the last write to have stored it there. */
  ghost predicate CellWord(s: State, j: nat, k: nat)
    requires Shaped(s)
  {
    k < s.w && Stored(s, j, k) && !Stored(s, j + s.n, k) ==> s.cells[Wrap(j, s.n)][k] == s.written[j][k]
  }

  /** Word `k`, read after loading `i`, is the word of write `j`: the `i`-th or a later one to the same cell. */
  ghost predicate FromWrite(s: State, i: nat, k: nat, word: int, j: nat)
    requires Shaped(s)
  {
    i <= j && Wrap(j, s.n) == Wrap(i, s.n) && k < s.w && Stored(s, j, k) && word == s.written[j][k]
  }

  ghost predicate ReaderWord(s: State, rd: Reader, k: nat)
    requires Shaped(s) && 0 <= rd.loaded <= s.index && k < |rd.got| <= s.w
  {
    && (exists j: nat :: FromWrite(s, rd.loaded, k, rd.got[k], j))
    && (!Stored(s, rd.loaded + s.n, k) ==> rd.got[k] == s.written[rd.loaded][k])
  }

  ghost predicate Inv(s: State) {
    && Shaped(s)
    && (forall j: nat, k: nat {:trigger CellWord(s, j, k)} :: CellWord(s, j, k))
    && (forall r, k: nat {:trigger ReaderWord(s, s.readers[r], k)} |
          r in s.readers && s.readers[r].loaded >= 0 && k < |s.readers[r].got| :: ReaderWord(s, s.readers[r], k))
  }

  lemma StoredGrows(s: State, a: Action, j: int, k: nat)
    requires Shaped(s) && k < s.w && Stored(s, j, k)
    ensures Stored(Step(s, a), j, k)
  {
  }

  lemma StoreKeepsCells(s: State, j: nat, k: nat)
    requires Inv(s) && Enabled(s, StoreWord)
    ensures CellWord(Step(s, StoreWord), j, k)
  {
    var t, next := Step(s, StoreWord), s.index + 1;
    assert CellWord(s, j, k);
    if k < s.w && Stored(t, j, k) && !Stored(t, j + s.n, k) {
      if j < next < j + s.n {
        LapIsInjective(j, next, s.n);
      }
    }
  }

  lemma StepKeepsCells(s: State, a: Action, j: nat, k: nat)
    requires Inv(s)
    ensures CellWord(Step(s, a), j, k)
  {
    assert CellWord(s, j, k);
    if Enabled(s, a) && a.StoreWord? {
      StoreKeepsCells(s, j, k);
    }
  }

  lemma StepKeepsReaderWord(s: State, a: Action, rd: Reader, k: nat)
    requires Inv(s) && 0 <= rd.loaded <= s.index && k < |rd.got| <= s.w && ReaderWord(s, rd, k)
    ensures ReaderWord(Step(s, a), rd, k)
  {
    var t := Step(s, a);
    var j: nat :| FromWrite(s, rd.loaded, k, rd.got[k], j);
    StoredGrows(s, a, j, k);
    assert FromWrite(t, rd.loaded, k, rd.got[k], j);
    if Stored(s, rd.loaded + s.n, k) {
      StoredGrows(s, a, rd.loaded + s.n, k);
    }
  }

  /** The write whose word is in the cell now, going up lap by lap from a published one. */
  lemma {:induction false} SourceOf(s: State, i: nat, j: nat, k: nat) returns (last: nat)
    requires Inv(s) && k < s.w && i <= j && Wrap(j, s.n) == Wrap(i, s.n) && Stored(s, j, k)
    ensures FromWrite(s, i, k, s.cells[Wrap(i, s.n)][k], last) && !Stored(s, last + s.n, k) && j <= last
    decreases s.index + 1 - j
  {
    if Stored(s, j + s.n, k) {
      last := SourceOf(s, i, j + s.n, k);
    } else {
      assert CellWord(s, j, k);
      last := j;
    }
  }

  lemma NewReaderWord(s: State, r: nat)
    requires Inv(s) && Enabled(s, ReadWord(r))
    ensures var t := Step(s, ReadWord(r));
            ReaderWord(t, t.readers[r], |s.readers[r].got|)
  {
    var t := Step(s, ReadWord(r));
    var rd, k := t.readers[r], |s.readers[r].got|;
    var last := SourceOf(s, rd.loaded, rd.loaded, k);
    assert FromWrite(t, rd.loaded, k, rd.got[k], last);
    assert CellWord(s, rd.loaded, k);
  }

  lemma StepKeepsInv(s: State, a: Action)
    requires Inv(s)
    ensures Inv(Step(s, a))
  {
    var t := Step(s, a);
    forall j: nat, k: nat
      ensures CellWord(t, j, k)
    {
      StepKeepsCells(s, a, j, k);
    }
    forall r, k: nat | r in t.readers && t.readers[r].loaded >= 0 && k < |t.readers[r].got|
      ensures ReaderWord(t, t.readers[r], k)
    {
      if r in s.readers && s.readers[r].loaded == t.readers[r].loaded && k < |s.readers[r].got| {
        assert ReaderWord(s, s.readers[r], k);
        StepKeepsReaderWord(s, a, s.readers[r], k);
        var j: nat :| FromWrite(t, s.readers[r].loaded, k, s.readers[r].got[k], j);
        assert FromWrite(t, t.readers[r].loaded, k, t.readers[r].got[k], j);
      } else {
        NewReaderWord(s, r);
      }
    }
  }

  lemma InitInv(n: nat, w: nat)
    requires n > 0
    ensures Inv(Init(n, w))
  {
  }

  lemma {:induction false} RunKeepsInv(s: State, acts: seq<Action>)
    requires Inv(s)
    ensures Inv(Exec(s, acts))
    decreases |acts|
  {
    if acts != [] {
      StepKeepsInv(s, acts[0]);
      RunKeepsInv(Step(s, acts[0]), acts[1..]);
    }
  }

  // ---------------------------------------------------------------------------
  // Main results
  // ---------------------------------------------------------------------------

  /** Reader `r` has copied a whole data point since it loaded the index. */
  predicate Complete(s: State, r: nat) {
    r in s.readers && s.readers[r].loaded >= 0 && |s.readers[r].got| == s.w
  }

  /** In every interleaving, a reader that loaded index `i` and has copied the whole cell before the
      writer stores the first word of write `i + n` holds exactly the `i`-th written value. */
  lemma ReadBeforeLapIsExact(n: nat, w: nat, acts: seq<Action>, r: nat)
    requires n > 0
    ensures var s := Exec(Init(n, w), acts);
            Complete(s, r) && !Stored(s, s.readers[r].loaded + n, 0)
            ==> s.readers[r].loaded < |s.written| && s.readers[r].got == s.written[s.readers[r].loaded]
  {
    var s := Exec(Init(n, w), acts);
    InitInv(n, w);
    RunKeepsInv(Init(n, w), acts);
    if Complete(s, r) && !Stored(s, s.readers[r].loaded + n, 0) {
      var rd := s.readers[r];
      forall k: nat | k < w
        ensures rd.got[k] == s.written[rd.loaded][k]
      {
        assert ReaderWord(s, s.readers[r], k);
      }
    }
  }

  /** Overtaken or not, every word a reader holds was written to the cell it asked for, by the write
      it asked for or a later one. */
  lemma ReadWordsAreNeverStale(n: nat, w: nat, acts: seq<Action>, r: nat, k: nat)
    requires n > 0
    ensures var s := Exec(Init(n, w), acts);
            r in s.readers && s.readers[r].loaded >= 0 && k < |s.readers[r].got|
            ==> exists j: nat :: FromWrite(s, s.readers[r].loaded, k, s.readers[r].got[k], j)
  {
    var s := Exec(Init(n, w), acts);
    InitInv(n, w);
    RunKeepsInv(Init(n, w), acts);
    if r in s.readers && s.readers[r].loaded >= 0 && k < |s.readers[r].got| {
      assert ReaderWord(s, s.readers[r], k);
    }
  }

  function LastSeen(s: State, r: nat): int {
    if r in s.readers then s.readers[r].loaded else -1
  }

  /** The indices that one reader loads never go backwards. */
  lemma {:induction false} LoadsNeverGoBack(s: State, acts: seq<Action>, r: nat)
    requires Shaped(s)
    ensures LastSeen(s, r) <= LastSeen(Exec(s, acts), r)
    decreases |acts|
  {
    if acts != [] {
      LoadsNeverGoBack(Step(s, acts[0]), acts[1..], r);
    }
  }
}
