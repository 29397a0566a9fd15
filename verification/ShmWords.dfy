/** The steps of the protocol are the stores and loads of the ring in memory: each micro-step of the writer
    patches one word or the index of its slot, a whole write is what the store's `write` does to the bytes, and
    the words that readers copy are the words that are there. */
module ShmWords {
  import opened Bytes
  import opened Symbols
  import opened Multiples
  import opened ShmLayout
  import opened ShmStore
  import opened ShmProtocol
  import opened ShmReloadCheck

  /** Address of word `k` of cell `c` of the ring whose first cell is at `data`. */
  function WordAddress(data: nat, cell: nat, c: nat, k: nat): nat {
    data + Times(cell, c) + 8 * k
  }

  ghost predicate WordHolds(m: seq<byte>, data: nat, cell: nat, s: State, c: nat, k: nat)
    requires Shaped(s) && c < s.n && k < s.w
  {
    var a, v := WordAddress(data, cell, c, k), s.cells[c][k];
    a + 8 <= |m| && 0 <= v <= U64_MAX && m[a..a + 8] == U64Bytes(v)
  }

  /** The memory `m` holds the state's index and cells in the slot at `at` (header, first cell). */
  ghost predicate Represents(m: seq<byte>, lay: Layout, at: (nat, nat), s: State) {
    && Shaped(s) && s.n == lay.size && lay.cell == 8 * s.w && s.index <= I64_MAX
    && at.0 + INSTRUMENT_HEADER_SIZE == at.1 && at.1 + Times(lay.cell, lay.size) <= |m|
    && m[at.0 + INDEX_FIELD..at.0 + INDEX_FIELD + 8] == I64Bytes(s.index)
    && forall c: nat, k: nat {:trigger WordHolds(m, at.1, lay.cell, s, c, k)} | c < s.n && k < s.w ::
         WordHolds(m, at.1, lay.cell, s, c, k)
  }

  /** Every word that the writer stores is a machine word. */
  predicate WordsFit(s: State) {
    forall j, k | 0 <= j < |s.written| && 0 <= k < |s.written[j]| :: 0 <= s.written[j][k] <= U64_MAX
  }

  /** The slot's addresses lie in the region and the next index can be published. */
  predicate Addressable(m: seq<byte>, lay: Layout, at: (nat, nat), s: State) {
    && WordsFit(s) && s.n == lay.size && lay.cell == 8 * s.w && s.index < I64_MAX
    && at.0 + INSTRUMENT_HEADER_SIZE == at.1 && at.1 + Times(lay.cell, lay.size) <= |m|
  }

  /** What one step does to the memory: only the writer's stores and its publication change it. */
  function MemoryStep(m: seq<byte>, lay: Layout, at: (nat, nat), s: State, a: Action): (m': seq<byte>)
    requires Shaped(s)
    ensures |m'| == |m|
  {
    if !Enabled(s, a) || !Addressable(m, lay, at, s) then m
    else match a
      case StoreWord =>
        var next, k := s.index + 1, s.writer.stored;
        WordInRing(lay, at.1, Wrap(next, s.n), k);
        Patch(m, WordAddress(at.1, lay.cell, Wrap(next, s.n), k), U64Bytes(s.written[next][k]))
      case Publish => Patch(m, at.0 + INDEX_FIELD, I64Bytes(s.index + 1))
      case _ => m
  }

  lemma WordInRing(lay: Layout, data: nat, c: nat, k: nat)
    requires c < lay.size && 8 * k + 8 <= lay.cell
    ensures data <= WordAddress(data, lay.cell, c, k)
            && WordAddress(data, lay.cell, c, k) + 8 <= data + Times(lay.cell, lay.size)
  {
    TimesMonotone(lay.cell, c, lay.size);
  }

  lemma WordsApart(cell: nat, data: nat, c: nat, k: nat, d: nat, l: nat)
    requires 8 * k + 8 <= cell && 8 * l + 8 <= cell && (c != d || k != l)
    ensures var a, b := WordAddress(data, cell, c, k), WordAddress(data, cell, d, l); a + 8 <= b || b + 8 <= a
  {
    if c < d { TimesMonotone(cell, c, d); } else if d < c { TimesMonotone(cell, d, c); }
  }

  // ---------------------------------------------------------------------------
  // Every step
  // ---------------------------------------------------------------------------

  lemma StoredWordHolds(m: seq<byte>, lay: Layout, at: (nat, nat), s: State, d: nat, l: nat)
    requires Represents(m, lay, at, s) && Addressable(m, lay, at, s) && Enabled(s, StoreWord) && d < s.n && l < s.w
    ensures WordHolds(MemoryStep(m, lay, at, s, StoreWord), at.1, lay.cell, Step(s, StoreWord), d, l)
  {
    var next, k := s.index + 1, s.writer.stored;
    var c := Wrap(next, s.n);
    var a, b := WordAddress(at.1, lay.cell, c, k), WordAddress(at.1, lay.cell, d, l);
    WordInRing(lay, at.1, c, k);
    assert WordHolds(m, at.1, lay.cell, s, d, l);
    if d == c && l == k {
      PatchReadsBack(m, a, U64Bytes(s.written[next][k]));
    } else {
      WordsApart(lay.cell, at.1, c, k, d, l);
      PatchElsewhere(m, a, U64Bytes(s.written[next][k]), b, b + 8);
    }
  }

  lemma StoreWordRepresents(m: seq<byte>, lay: Layout, at: (nat, nat), s: State)
    requires Represents(m, lay, at, s) && Addressable(m, lay, at, s) && Enabled(s, StoreWord)
    ensures Represents(MemoryStep(m, lay, at, s, StoreWord), lay, at, Step(s, StoreWord))
  {
    var next, k := s.index + 1, s.writer.stored;
    var a := WordAddress(at.1, lay.cell, Wrap(next, s.n), k);
    WordInRing(lay, at.1, Wrap(next, s.n), k);
    PatchElsewhere(m, a, U64Bytes(s.written[next][k]), at.0 + INDEX_FIELD, at.0 + INDEX_FIELD + 8);
    forall d: nat, l: nat | d < s.n && l < s.w
      ensures WordHolds(MemoryStep(m, lay, at, s, StoreWord), at.1, lay.cell, Step(s, StoreWord), d, l)
    {
      StoredWordHolds(m, lay, at, s, d, l);
    }
  }

  lemma PublishRepresents(m: seq<byte>, lay: Layout, at: (nat, nat), s: State)
    requires Represents(m, lay, at, s) && Addressable(m, lay, at, s) && Enabled(s, Publish)
    ensures Represents(MemoryStep(m, lay, at, s, Publish), lay, at, Step(s, Publish))
  {
    var m', t := MemoryStep(m, lay, at, s, Publish), Step(s, Publish);
    var a := at.0 + INDEX_FIELD;
    PatchReadsBack(m, a, I64Bytes(s.index + 1));
    forall d: nat, l: nat | d < t.n && l < t.w
      ensures WordHolds(m', at.1, lay.cell, t, d, l)
    {
      assert WordHolds(m, at.1, lay.cell, s, d, l);
      var b := WordAddress(at.1, lay.cell, d, l);
      PatchElsewhere(m, a, I64Bytes(s.index + 1), b, b + 8);
    }
  }

  /** One step of the protocol is one step of the memory. */
  lemma StepRepresents(m: seq<byte>, lay: Layout, at: (nat, nat), s: State, a: Action)
    requires Represents(m, lay, at, s) && Addressable(m, lay, at, s)
    ensures Represents(MemoryStep(m, lay, at, s, a), lay, at, Step(s, a))
  {
    if Enabled(s, a) && a == StoreWord {
      StoreWordRepresents(m, lay, at, s);
    } else if Enabled(s, a) && a == Publish {
      PublishRepresents(m, lay, at, s);
    } else {
      var t := Step(s, a);
      forall d: nat, l: nat | d < t.n && l < t.w
        ensures WordHolds(m, at.1, lay.cell, t, d, l)
      {
        assert WordHolds(m, at.1, lay.cell, s, d, l);
      }
    }
  }

  /** What readers load is what is there: the index bytes, and the words of the cell they ask for. */
  lemma LoadsAreMemory(m: seq<byte>, lay: Layout, at: (nat, nat), s: State, r: nat)
    requires Represents(m, lay, at, s)
    ensures Step(s, LoadIndex(r)).readers[r].loaded == ReadI64Le(m, at.0 + INDEX_FIELD)
    ensures Enabled(s, ReadWord(r)) ==>
              var rd := s.readers[r];
              var a := WordAddress(at.1, lay.cell, Wrap(rd.loaded, lay.size), |rd.got|);
              && a + 8 <= |m|
              && var got := Step(s, ReadWord(r)).readers[r].got;
                 got == rd.got + [got[|rd.got|]] && 0 <= got[|rd.got|] <= U64_MAX
                 && m[a..a + 8] == U64Bytes(got[|rd.got|])
  {
    ReadBackI64(m, at.0 + INDEX_FIELD, s.index);
    if Enabled(s, ReadWord(r)) {
      assert WordHolds(m, at.1, lay.cell, s, Wrap(s.readers[r].loaded, s.n), |s.readers[r].got|);
    }
  }

  // ---------------------------------------------------------------------------
  // Every interleaving
  // ---------------------------------------------------------------------------

  function MemoryRun(m: seq<byte>, lay: Layout, at: (nat, nat), s: State, acts: seq<Action>): (m': seq<byte>)
    requires Shaped(s)
    ensures |m'| == |m|
  {
    if acts == [] then m
    else
      var before := acts[..|acts| - 1];
      MemoryStep(MemoryRun(m, lay, at, s, before), lay, at, Exec(s, before), acts[|acts| - 1])
  }

  /** Every value given to `write` is made of machine words. */
  predicate ValuesFit(acts: seq<Action>) {
    forall i | 0 <= i < |acts| && acts[i].BeginWrite? ::
      forall k | 0 <= k < |acts[i].value| :: 0 <= acts[i].value[k] <= U64_MAX
  }

  lemma ExecSnoc(s: State, acts: seq<Action>, a: Action)
    requires Shaped(s)
    ensures Exec(s, acts + [a]) == Step(Exec(s, acts), a)
  {
    ExecConcat(s, acts, [a]);
  }

  lemma StepKeepsFit(s: State, a: Action)
    requires Shaped(s) && WordsFit(s)
    requires a.BeginWrite? ==> forall k | 0 <= k < |a.value| :: 0 <= a.value[k] <= U64_MAX
    ensures WordsFit(Step(s, a)) && Step(s, a).index <= s.index + 1
  {
  }

  /** In every interleaving of the writer's and the readers' steps the memory goes along with the protocol. */
  lemma {:induction false} RunRepresents(m: seq<byte>, lay: Layout, at: (nat, nat), s: State, acts: seq<Action>)
    requires Represents(m, lay, at, s) && WordsFit(s) && ValuesFit(acts) && s.index + |acts| < I64_MAX
    ensures var t := Exec(s, acts);
            Represents(MemoryRun(m, lay, at, s, acts), lay, at, t) && WordsFit(t) && t.index <= s.index + |acts|
  {
    if acts != [] {
      var before, a := acts[..|acts| - 1], acts[|acts| - 1];
      RunRepresents(m, lay, at, s, before);
      assert acts == before + [a];
      ExecSnoc(s, before, a);
      StepKeepsFit(Exec(s, before), a);
      StepRepresents(MemoryRun(m, lay, at, s, before), lay, at, Exec(s, before), a);
    }
  }

  // ---------------------------------------------------------------------------
  // A whole write
  // ---------------------------------------------------------------------------

  function Stores(j: nat): (acts: seq<Action>)
    ensures |acts| == j
  {
    if j == 0 then [] else Stores(j - 1) + [StoreWord]
  }

  lemma PatchOn(m: seq<byte>, a: nat, x: seq<byte>, y: seq<byte>)
    requires a + |x| + |y| <= |m|
    ensures Patch(Patch(m, a, x), a + |x|, y) == Patch(m, a, x + y)
  {
  }

  lemma WordBytesOn(v: seq<u64>, j: nat)
    requires j < |v|
    ensures WordBytes(v[..j + 1]) == WordBytes(v[..j]) + U64Bytes(v[j])
  {
    assert v[..j + 1][..j] == v[..j];
  }

  /** `t` is `s` with the first `j` words of the data point under way stored. */
  predicate MidWrite(s: State, t: State, j: nat) {
    t == s.(cells := t.cells, writer := Storing(j))
  }

  lemma StoreOne(m: seq<byte>, lay: Layout, at: (nat, nat), t: State, v: seq<u64>, j: nat)
    requires Shaped(t) && Addressable(m, lay, at, t) && t.writer == Storing(j) && j < t.w && t.written[t.index + 1] == v
    ensures var a := WordAddress(at.1, lay.cell, Wrap(t.index + 1, t.n), 0);
            && a + 8 * j + 8 <= |m| && MemoryStep(m, lay, at, t, StoreWord) == Patch(m, a + 8 * j, U64Bytes(v[j]))
    ensures MidWrite(t, Step(t, StoreWord), j + 1)
  {
    WordInRing(lay, at.1, Wrap(t.index + 1, t.n), j);
  }

  /** The run `acts` leads from memory `m` and state `s` to `m'` and `t`. */
  predicate Leads(m: seq<byte>, lay: Layout, at: (nat, nat), s: State, acts: seq<Action>, m': seq<byte>, t: State)
    requires Shaped(s)
  {
    MemoryRun(m, lay, at, s, acts) == m' && Exec(s, acts) == t
  }

  lemma LeadsOn(m: seq<byte>, lay: Layout, at: (nat, nat), s: State, acts: seq<Action>, m': seq<byte>, t: State,
                a: Action)
    requires Shaped(s) && Shaped(t) && Leads(m, lay, at, s, acts, m', t)
    ensures Leads(m, lay, at, s, acts + [a], MemoryStep(m', lay, at, t, a), Step(t, a))
  {
    assert (acts + [a])[..|acts|] == acts;
    ExecSnoc(s, acts, a);
  }

  lemma {:induction false} LeadsConcat(m: seq<byte>, lay: Layout, at: (nat, nat), s: State, a: seq<Action>,
                                       m1: seq<byte>, t: State, b: seq<Action>)
    requires Shaped(s) && Shaped(t) && Leads(m, lay, at, s, a, m1, t)
    ensures Leads(m, lay, at, s, a + b, MemoryRun(m1, lay, at, t, b), Exec(t, b))
  {
    if b == [] {
      assert a + b == a;
    } else {
      var front, x := b[..|b| - 1], b[|b| - 1];
      assert a + b == (a + front) + [x] && b == front + [x];
      LeadsConcat(m, lay, at, s, a, m1, t, front);
      LeadsOn(m, lay, at, s, a + front, MemoryRun(m1, lay, at, t, front), Exec(t, front), x);
      ExecSnoc(t, front, x);
    }
  }

  lemma StayAddressable(m: seq<byte>, m': seq<byte>, lay: Layout, at: (nat, nat), s: State, t: State, j: nat)
    requires Shaped(s) && Addressable(m, lay, at, s) && |m'| == |m| && MidWrite(s, t, j)
    ensures Addressable(m', lay, at, t)
  {
  }

  lemma StoresOn(m: seq<byte>, a: nat, v: seq<u64>, j: nat)
    requires j < |v| && a + 8 * j + 8 <= |m|
    ensures Patch(Patch(m, a, WordBytes(v[..j])), a + 8 * j, U64Bytes(v[j])) == Patch(m, a, WordBytes(v[..j + 1]))
  {
    WordBytesOn(v, j);
    PatchOn(m, a, WordBytes(v[..j]), U64Bytes(v[j]));
  }

  lemma StoreNext(m: seq<byte>, lay: Layout, at: (nat, nat), s: State, v: seq<u64>, a: nat, j: nat, m1: seq<byte>,
                  t1: State)
    requires Shaped(s) && Addressable(m, lay, at, s) && s.writer == Storing(0) && s.written[s.index + 1] == v && j < s.w
    requires a == WordAddress(at.1, lay.cell, Wrap(s.index + 1, s.n), 0)
    requires Shaped(t1) && MidWrite(s, t1, j) && |m1| == |m|
    ensures a + 8 * j + 8 <= |m| && MemoryStep(m1, lay, at, t1, StoreWord) == Patch(m1, a + 8 * j, U64Bytes(v[j]))
    ensures MidWrite(s, Step(t1, StoreWord), j + 1)
  {
    StayAddressable(m, m1, lay, at, s, t1, j);
    StoreOne(m1, lay, at, t1, v, j);
  }

  lemma StoresLeadOn(m: seq<byte>, lay: Layout, at: (nat, nat), s: State, v: seq<u64>, a: nat, j: nat, m1: seq<byte>,
                     t1: State)
    returns (m': seq<byte>, t: State)
    requires Shaped(s) && Addressable(m, lay, at, s) && s.writer == Storing(0) && s.written[s.index + 1] == v && j < s.w
    requires a == WordAddress(at.1, lay.cell, Wrap(s.index + 1, s.n), 0) && a + 8 * s.w <= |m|
    requires Leads(m, lay, at, s, Stores(j), m1, t1) && Shaped(t1) && MidWrite(s, t1, j)
             && m1 == Patch(m, a, WordBytes(v[..j]))
    ensures Leads(m, lay, at, s, Stores(j) + [StoreWord], m', t) && Shaped(t) && MidWrite(s, t, j + 1)
    ensures m' == Patch(m, a, WordBytes(v[..j + 1]))
  {
    LeadsOn(m, lay, at, s, Stores(j), m1, t1, StoreWord);
    StoreNext(m, lay, at, s, v, a, j, m1, t1);
    StoresOn(m, a, v, j);
    m', t := MemoryStep(m1, lay, at, t1, StoreWord), Step(t1, StoreWord);
  }

  /** The first `j` words of the data point have been stored. */
  lemma {:induction false} StoresLead(m: seq<byte>, lay: Layout, at: (nat, nat), s: State, v: seq<u64>, a: nat, j: nat)
    returns (m': seq<byte>, t: State)
    requires Shaped(s) && Addressable(m, lay, at, s) && s.writer == Storing(0) && s.written[s.index + 1] == v
             && j <= s.w
    requires a == WordAddress(at.1, lay.cell, Wrap(s.index + 1, s.n), 0) && a + 8 * s.w <= |m|
    ensures Leads(m, lay, at, s, Stores(j), m', t) && Shaped(t) && MidWrite(s, t, j)
            && m' == Patch(m, a, WordBytes(v[..j]))
  {
    if j == 0 {
      m', t := m, s;
      assert WordBytes(v[..0]) == [];
    } else {
      var m1, t1 := StoresLead(m, lay, at, s, v, a, j - 1);
      m', t := StoresLeadOn(m, lay, at, s, v, a, j - 1, m1, t1);
    }
  }

  lemma PublishOne(m: seq<byte>, lay: Layout, at: (nat, nat), t: State)
    requires Shaped(t) && Addressable(m, lay, at, t) && t.writer == Storing(t.w)
    ensures at.0 + INDEX_FIELD + 8 <= |m|
    ensures MemoryStep(m, lay, at, t, Publish) == Patch(m, at.0 + INDEX_FIELD, I64Bytes(t.index + 1))
    ensures Step(t, Publish) == t.(writer := Idle, index := t.index + 1)
  {
  }

  function WriteActions(v: seq<u64>): seq<Action> {
    [BeginWrite(v)] + (Stores(|v|) + [Publish])
  }

  /** From the loaded index on: all words, then the index. */
  lemma StoresAndPublish(m: seq<byte>, lay: Layout, at: (nat, nat), s: State, v: seq<u64>, a: nat)
    returns (m': seq<byte>, t: State)
    requires Shaped(s) && Addressable(m, lay, at, s) && s.writer == Storing(0) && s.written[s.index + 1] == v
    requires a == WordAddress(at.1, lay.cell, Wrap(s.index + 1, s.n), 0)
    ensures Leads(m, lay, at, s, Stores(|v|) + [Publish], m', t) && a + 8 * |v| <= |m|
    ensures m' == Patch(Patch(m, a, WordBytes(v)), at.0 + INDEX_FIELD, I64Bytes(s.index + 1))
    ensures t == s.(cells := t.cells, writer := Idle, index := s.index + 1)
  {
    TimesMonotone(lay.cell, Wrap(s.index + 1, s.n), lay.size);
    var m1, t1 := StoresLead(m, lay, at, s, v, a, |v|);
    assert v[..|v|] == v;
    LeadsOn(m, lay, at, s, Stores(|v|), m1, t1, Publish);
    StayAddressable(m, m1, lay, at, s, t1, |v|);
    PublishOne(m1, lay, at, t1);
    m', t := MemoryStep(m1, lay, at, t1, Publish), Step(t1, Publish);
  }

  lemma BeginLeads(m: seq<byte>, lay: Layout, at: (nat, nat), s: State, v: seq<u64>)
    requires Shaped(s) && s.writer.Idle? && |v| == s.w
    ensures Leads(m, lay, at, s, [BeginWrite(v)], m, s.(writer := Storing(0), written := s.written + [v]))
  {
    LeadsOn(m, lay, at, s, [], m, s, BeginWrite(v));
    assert [] + [BeginWrite(v)] == [BeginWrite(v)];
  }

  lemma WriteLeads(m: seq<byte>, lay: Layout, at: (nat, nat), s: State, v: seq<u64>, a: nat)
    returns (m': seq<byte>, t: State)
    requires Shaped(s) && Addressable(m, lay, at, s) && s.writer.Idle? && |v| == s.w
    requires a == WordAddress(at.1, lay.cell, Wrap(s.index + 1, s.n), 0)
    ensures Leads(m, lay, at, s, WriteActions(v), m', t) && a + 8 * |v| <= |m|
    ensures m' == Patch(Patch(m, a, WordBytes(v)), at.0 + INDEX_FIELD, I64Bytes(s.index + 1))
    ensures t.writer.Idle? && t.index == s.index + 1 && t.written == s.written + [v] && t.readers == s.readers
  {
    BeginLeads(m, lay, at, s, v);
    var begun := s.(writer := Storing(0), written := s.written + [v]);
    m', t := StoresAndPublish(m, lay, at, begun, v, a);
    LeadsConcat(m, lay, at, s, [BeginWrite(v)], m, begun, Stores(|v|) + [Publish]);
  }

  lemma WriteBytesAre<T(!new)>(m: seq<byte>, lay: Layout, image: Image<T>, index: map<Str, (nat, nat)>, sym: Str, x: T,
                               s: State, a: nat)
    requires sym in index && Represents(m, lay, index[sym], s) && s.index < I64_MAX
    requires a == WordAddress(index[sym].1, lay.cell, Wrap(s.index + 1, s.n), 0) && a + |image.encode(x)| <= |m|
    ensures var i := index[sym].0 + INDEX_FIELD;
            && i + 8 <= |m|
            && WriteBytes(m, lay, image, index, sym, x)
               == Patch(Patch(m, a, image.encode(x)), i, I64Bytes(s.index + 1))
  {
    ReadBackI64(m, index[sym].0 + INDEX_FIELD, s.index);
  }

  /** The writer's steps for a data point do to the bytes exactly what `write` does. */
  lemma WriteIsItsSteps<T(!new)>(m: seq<byte>, lay: Layout, image: Image<T>, index: map<Str, (nat, nat)>, sym: Str,
                                 x: T, s: State, v: seq<u64>) returns (m': seq<byte>, t: State)
    requires sym in index && Represents(m, lay, index[sym], s) && Addressable(m, lay, index[sym], s)
    requires s.writer.Idle? && |v| == s.w && image.encode(x) == WordBytes(v)
    ensures Leads(m, lay, index[sym], s, WriteActions(v), m', t)
    ensures m' == WriteBytes(m, lay, image, index, sym, x)
    ensures t.writer.Idle? && t.index == s.index + 1 && t.written == s.written + [v] && t.readers == s.readers
  {
    var a := WordAddress(index[sym].1, lay.cell, Wrap(s.index + 1, s.n), 0);
    m', t := WriteLeads(m, lay, index[sym], s, v, a);
    WriteBytesAre(m, lay, image, index, sym, x, s, a);
  }
}
