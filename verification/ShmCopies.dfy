/** Readers in terms of bytes: the slots that `create` lays out are where the protocol starts, what a reader
    copies out of memory is what the protocol's reader holds, and a copy made in time decodes to the data point. */
module ShmCopies {
  import opened Bytes
  import opened Symbols
  import opened Multiples
  import opened ShmLayout
  import opened ShmStore
  import opened ShmProtocol
  import opened ShmWords

  // ---------------------------------------------------------------------------
  // The start
  // ---------------------------------------------------------------------------

  lemma ZeroWord()
    ensures U64Bytes(0) == Zeros(8)
  {
    forall i: nat | i < 8
      ensures U64Bytes(0)[i] == 0
    {
      QuotientUnique(0, Pow256(i), 0, 0);
    }
  }

  lemma NewWordHolds(m: seq<byte>, lay: Layout, k: nat, w: nat, c: nat, l: nat)
    requires CellsZero(m, lay, k) && lay.size > 0 && lay.cell == 8 * w && c < lay.size && l < w
    ensures WordHolds(m, lay.SlotAt(k) + INSTRUMENT_HEADER_SIZE, lay.cell, Init(lay.size, w), c, l)
  {
    var data := lay.SlotAt(k) + INSTRUMENT_HEADER_SIZE;
    var a := WordAddress(data, lay.cell, c, l);
    WordInRing(lay, data, c, l);
    ZeroWord();
    assert m[a..a + 8] == Zeros(8);
  }

  /** A slot that nothing was written to is the protocol's initial state. */
  lemma NewSlotRepresents<T(!new)>(m: seq<byte>, lay: Layout, image: Image<T>, symbols: seq<Str>,
                                   index: map<Str, (nat, nat)>, slots: map<Str, nat>, histories: map<Str, seq<T>>,
                                   sym: Str, w: nat)
    requires StoreHolds(m, lay, image, symbols, index, slots, histories) && sym in index && histories[sym] == []
    requires CellsZero(m, lay, slots[sym]) && lay.size > 0 && lay.cell == 8 * w
    ensures Represents(m, lay, index[sym], Init(lay.size, w))
  {
    var k, s := slots[sym], Init(lay.size, w);
    assert SlotHolds(m, lay, image, symbols, index, slots, histories, sym);
    forall c: nat, l: nat | c < s.n && l < s.w
      ensures WordHolds(m, index[sym].1, lay.cell, s, c, l)
    {
      NewWordHolds(m, lay, k, w, c, l);
    }
  }

  /** Every slot that a new store's index map points at is one. */
  method CreateForProtocol<T(!new)>(image: Image<T>, symbols: seq<Str>, bufferSize: u32, ghost w: nat)
    returns (store: ShmMdStore<T>)
    requires image.Sized() && bufferSize > 0 && image.size == 8 * w
    ensures fresh(store) && store.Valid() && store.symbols == symbols && store.image == image
            && store.bufferSize == bufferSize
    ensures forall sym | sym in store.index ::
              Represents(store.mem[..], store.Lay(), store.index[sym], Init(bufferSize, w))
  {
    store := new ShmMdStore<T>.Create(image, symbols, bufferSize);
    forall sym | sym in store.index
      ensures Represents(store.mem[..], store.Lay(), store.index[sym], Init(bufferSize, w))
    {
      assert SlotHolds(store.mem[..], store.Lay(), image, symbols, store.index, store.slots, store.histories, sym);
      NewSlotRepresents(store.mem[..], store.Lay(), image, symbols, store.index, store.slots, store.histories, sym, w);
    }
  }

  // ---------------------------------------------------------------------------
  // Copies
  // ---------------------------------------------------------------------------

  /** What a reader has: the index it loaded last, and the bytes of so many words. */
  datatype Copy = Copy(index: int, count: nat, bytes: seq<byte>)

  const NO_COPY: Copy := Copy(-1, 0, [])

  /** One load by reader `r` from the memory `m`. */
  function CopyStep(m: seq<byte>, lay: Layout, at: (nat, nat), c: Copy, a: Action, r: nat): Copy {
    if a == LoadIndex(r) && at.0 + INDEX_FIELD + 8 <= |m| then
      Copy(ReadI64Le(m, at.0 + INDEX_FIELD), 0, [])
    else if a == ReadWord(r) && c.index >= 0 && 8 * c.count < lay.cell && lay.size > 0 then
      var address := WordAddress(at.1, lay.cell, Wrap(c.index, lay.size), c.count);
      if address + 8 <= |m| then Copy(c.index, c.count + 1, c.bytes + m[address..address + 8]) else c
    else c
  }

  /** What reader `r` has copied out of memory in the course of a run. */
  function CopyAfter(m: seq<byte>, lay: Layout, at: (nat, nat), s: State, acts: seq<Action>, r: nat): Copy
    requires Shaped(s)
  {
    if acts == [] then NO_COPY
    else
      var before := acts[..|acts| - 1];
      CopyStep(MemoryRun(m, lay, at, s, before), lay, at, CopyAfter(m, lay, at, s, before, r), acts[|acts| - 1], r)
  }

  predicate AreWords(ws: seq<int>) {
    forall k | 0 <= k < |ws| :: 0 <= ws[k] <= U64_MAX
  }

  /** The copy is what the protocol's reader holds. */
  predicate SameCopy(c: Copy, s: State, r: nat) {
    if r in s.readers then
      var rd := s.readers[r];
      AreWords(rd.got) && c == Copy(rd.loaded, |rd.got|, WordBytes(rd.got))
    else c == NO_COPY
  }

  lemma WordBytesNext(ws: seq<u64>, v: u64)
    ensures WordBytes(ws + [v]) == WordBytes(ws) + U64Bytes(v)
  {
    assert (ws + [v])[..|ws|] == ws;
  }

  lemma ReadKeepsSameCopy(m: seq<byte>, lay: Layout, at: (nat, nat), s: State, c: Copy, r: nat)
    requires Represents(m, lay, at, s) && SameCopy(c, s, r) && Enabled(s, ReadWord(r))
    ensures SameCopy(CopyStep(m, lay, at, c, ReadWord(r), r), Step(s, ReadWord(r)), r)
  {
    LoadsAreMemory(m, lay, at, s, r);
    var got, got' := s.readers[r].got, Step(s, ReadWord(r)).readers[r].got;
    WordBytesNext(got, got'[|got|]);
  }

  lemma StepKeepsSameCopy(m: seq<byte>, lay: Layout, at: (nat, nat), s: State, c: Copy, a: Action, r: nat)
    requires Represents(m, lay, at, s) && SameCopy(c, s, r)
    ensures SameCopy(CopyStep(m, lay, at, c, a, r), Step(s, a), r)
  {
    if a == ReadWord(r) && Enabled(s, a) {
      ReadKeepsSameCopy(m, lay, at, s, c, r);
    } else if a == LoadIndex(r) {
      LoadsAreMemory(m, lay, at, s, r);
    }
  }

  /** In every interleaving the bytes a reader copies are the words of the protocol's reader. */
  lemma {:induction false} CopyIsReader(m: seq<byte>, lay: Layout, at: (nat, nat), s: State, acts: seq<Action>, r: nat)
    requires Represents(m, lay, at, s) && WordsFit(s) && ValuesFit(acts) && s.index + |acts| < I64_MAX
             && r !in s.readers
    ensures SameCopy(CopyAfter(m, lay, at, s, acts, r), Exec(s, acts), r)
  {
    if acts != [] {
      var before, a := acts[..|acts| - 1], acts[|acts| - 1];
      CopyIsReader(m, lay, at, s, before, r);
      RunRepresents(m, lay, at, s, before);
      assert acts == before + [a];
      ExecSnoc(s, before, a);
      StepKeepsSameCopy(MemoryRun(m, lay, at, s, before), lay, at, Exec(s, before),
                        CopyAfter(m, lay, at, s, before, r), a, r);
    }
  }

  /** The values given to `write`, word by word, are the images of the data points `xs`. */
  predicate Writes<T(!new)>(written: seq<Value>, image: Image<T>, xs: seq<T>) {
    && |written| == |xs|
    && forall j | 0 <= j < |xs| :: AreWords(written[j]) && WordBytes(written[j]) == image.encode(xs[j])
  }

  lemma CopyDecodes<T(!new)>(c: Copy, t: State, r: nat, image: Image<T>, xs: seq<T>)
    requires SameCopy(c, t, r) && Writes(t.written, image, xs)
    ensures c.index >= 0 && r in t.readers && t.readers[r].loaded < |t.written|
            && t.readers[r].got == t.written[t.readers[r].loaded]
            ==> c.index < |xs| && image.decode(c.bytes) == image.Kept(xs[c.index])
  {
  }

  /** A reader that has copied a whole cell before the writer stores the first word of the write one lap on has
      bytes that decode to the data point whose position it loaded: `index` is what it found in the index bytes,
      and `bytes` are what it found in the cell, word by word, in whatever interleaving with the writer. */
  lemma CopyBeforeLapIsExact<T(!new)>(m: seq<byte>, lay: Layout, at: (nat, nat), w: nat, acts: seq<Action>, r: nat,
                                      image: Image<T>, xs: seq<T>)
    requires lay.size > 0 && Represents(m, lay, at, Init(lay.size, w)) && ValuesFit(acts) && |acts| <= I64_MAX
    requires Writes(Exec(Init(lay.size, w), acts).written, image, xs)
    ensures var c, t := CopyAfter(m, lay, at, Init(lay.size, w), acts, r), Exec(Init(lay.size, w), acts);
            c.index >= 0 && c.count == w && !Stored(t, c.index + lay.size, 0)
            ==> c.index < |xs| && image.decode(c.bytes) == image.Kept(xs[c.index])
  {
    CopyIsReader(m, lay, at, Init(lay.size, w), acts, r);
    ReadBeforeLapIsExact(lay.size, w, acts, r);
    CopyDecodes(CopyAfter(m, lay, at, Init(lay.size, w), acts, r), Exec(Init(lay.size, w), acts), r, image, xs);
  }
}
