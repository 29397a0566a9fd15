/** The per-symbol ring-buffer store over one flat region of memory, used by a single writer. */
module ShmStore {
  import opened Bytes
  import opened Symbols
  import opened Multiples
  import opened ShmLayout
  import opened MarketData
  import opened Streams

  /** `update_num`, which no operation ever bumps, `instrument_count as u32`, `buffer_size`. */
  function GlobalHeader(count: nat, size: u32): (h: seq<byte>)
    ensures |h| == SHM_HEADER_SIZE
  {
    U64Bytes(0) + U32Bytes(count % 0x1_0000_0000) + U32Bytes(size)
  }

  /** Slot `k` is where the last occurrence of `sym` among the configured symbols puts it. */
  ghost predicate LastAt(symbols: seq<Str>, sym: Str, k: nat) {
    k < |symbols| && symbols[k] == sym && forall j | k < j < |symbols| :: symbols[j] != sym
  }

  /** The memory of a store with the given symbols holds, slot by slot, the given histories. */
  ghost predicate StoreHolds<T(!new)>(m: seq<byte>, lay: Layout, image: Image<T>, symbols: seq<Str>,
                                      index: map<Str, (nat, nat)>, slots: map<Str, nat>, histories: map<Str, seq<T>>) {
    && image.size == lay.cell && lay.size <= 0xFFFF_FFFF
    && |m| == lay.SlotAt(|symbols|)
    && m[..SHM_HEADER_SIZE] == GlobalHeader(|symbols|, lay.size)
    && index.Keys == slots.Keys == histories.Keys == (set s | s in symbols)
    && (forall s {:trigger SlotHolds(m, lay, image, symbols, index, slots, histories, s)} | s in index ::
          SlotHolds(m, lay, image, symbols, index, slots, histories, s))
  }

  ghost predicate SlotHolds<T(!new)>(m: seq<byte>, lay: Layout, image: Image<T>, symbols: seq<Str>,
                                     index: map<Str, (nat, nat)>, slots: map<Str, nat>, histories: map<Str, seq<T>>,
                                     s: Str)
    requires s in index && s in slots && s in histories
  {
    var k := slots[s];
    && LastAt(symbols, s, k)
    && index[s] == (lay.SlotAt(k), lay.SlotAt(k) + INSTRUMENT_HEADER_SIZE)
    && HeaderIntact(m, lay, k, s)
    && HoldsHistory(m, lay, image, k, histories[s])
  }

  lemma FreshStoreHolds<T(!new)>(m: seq<byte>, lay: Layout, image: Image<T>, symbols: seq<Str>,
                                 index: map<Str, (nat, nat)>, slots: map<Str, nat>, histories: map<Str, seq<T>>)
    requires image.size == lay.cell && lay.size <= 0xFFFF_FFFF && |m| == lay.SlotAt(|symbols|)
    requires LaidOut(m, lay, symbols, |symbols|) && Indexes(index, slots, lay, symbols)
    requires histories.Keys == index.Keys && forall s | s in histories :: histories[s] == []
    ensures StoreHolds(m, lay, image, symbols, index, slots, histories)
  {
    forall s | s in index
      ensures SlotHolds(m, lay, image, symbols, index, slots, histories, s)
    {
      assert LastAt(symbols, s, slots[s]);
      assert SlotFresh(m, lay, symbols[slots[s]], slots[s]);
      FreshSlot(m, lay, image, slots[s], s);
    }
  }

  lemma WriteKeepsSlot<T(!new)>(m: seq<byte>, lay: Layout, image: Image<T>, symbols: seq<Str>,
                                index: map<Str, (nat, nat)>, slots: map<Str, nat>, histories: map<Str, seq<T>>,
                                sym: Str, data: T, s: Str)
    requires |image.encode(data)| == lay.cell && lay.size > 0
    requires {sym, s} <= index.Keys == slots.Keys == histories.Keys && |histories[sym]| <= I64_MAX
    requires SlotHolds(m, lay, image, symbols, index, slots, histories, sym)
    requires SlotHolds(m, lay, image, symbols, index, slots, histories, s)
    ensures SlotHolds(Written(m, lay, image, slots[sym], |histories[sym]|, data), lay, image, symbols, index, slots,
                      histories[sym := histories[sym] + [data]], s)
  {
    var k, h := slots[sym], histories[sym];
    WriteKeepsHeader(m, lay, image, k, |h|, data, slots[s], s);
    if s == sym {
      WriteAppends(m, lay, image, k, h, data);
    } else {
      WriteKeepsOthers(m, lay, image, k, |h|, data, slots[s], histories[s]);
    }
  }

  /** One write appends to one history and leaves the store well formed. */
  lemma WriteKeepsStore<T(!new)>(m: seq<byte>, lay: Layout, image: Image<T>, symbols: seq<Str>,
                                 index: map<Str, (nat, nat)>, slots: map<Str, nat>, histories: map<Str, seq<T>>,
                                 sym: Str, data: T)
    requires image.Sized() && StoreHolds(m, lay, image, symbols, index, slots, histories)
    requires sym in index && lay.size > 0 && |histories[sym]| <= I64_MAX
    ensures lay.SlotAt(slots[sym]) + lay.SlotSize() <= |m|
    ensures StoreHolds(Written(m, lay, image, slots[sym], |histories[sym]|, data), lay, image, symbols, index, slots,
                       histories[sym := histories[sym] + [data]])
  {
    assert SlotHolds(m, lay, image, symbols, index, slots, histories, sym);
    var m' := Written(m, lay, image, slots[sym], |histories[sym]|, data);
    var histories' := histories[sym := histories[sym] + [data]];
    forall s | s in index
      ensures SlotHolds(m', lay, image, symbols, index, slots, histories', s)
    {
      assert SlotHolds(m, lay, image, symbols, index, slots, histories, s);
      WriteKeepsSlot(m, lay, image, symbols, index, slots, histories, sym, data, s);
    }
    assert histories'.Keys == histories.Keys;
    GlobalHeaderKept(m, lay, image, slots[sym], |histories[sym]|, data);
    assert |m'| == |m|;
  }

  lemma GlobalHeaderKept<T(!new)>(m: seq<byte>, lay: Layout, image: Image<T>, k: nat, next: i64, x: T)
    requires next >= 0 && lay.size > 0 && |image.encode(x)| == lay.cell
    requires lay.SlotAt(k) + lay.SlotSize() <= |m|
    ensures Written(m, lay, image, k, next, x)[..SHM_HEADER_SIZE] == m[..SHM_HEADER_SIZE]
  {
    WriteStaysInSlot(m, lay, image, k, next, x, 0, SHM_HEADER_SIZE);
  }

  /** The two stores of `write`, cell first and index second, append one data point to the history
      of the symbol and change no byte outside its slot. */
  lemma WriteEffect<T(!new)>(m: seq<byte>, lay: Layout, image: Image<T>, symbols: seq<Str>,
                             index: map<Str, (nat, nat)>, slots: map<Str, nat>, histories: map<Str, seq<T>>,
                             sym: Str, data: T, cellAt: nat, indexAt: nat)
    requires image.Sized() && StoreHolds(m, lay, image, symbols, index, slots, histories)
    requires sym in index && lay.size > 0 && |histories[sym]| <= I64_MAX
    requires cellAt == index[sym].1 + Times(lay.cell, Wrap(|histories[sym]|, lay.size))
    requires indexAt == index[sym].0 + INDEX_FIELD
    ensures cellAt + |image.encode(data)| <= |m| && indexAt + 8 <= |m|
    ensures var m' := Patch(Patch(m, cellAt, image.encode(data)), indexAt, I64Bytes(|histories[sym]|));
            && StoreHolds(m', lay, image, symbols, index, slots, histories[sym := histories[sym] + [data]])
            && OnlySlotChanged(m, m', lay, slots[sym])
  {
    var k, next := slots[sym], |histories[sym]|;
    assert SlotHolds(m, lay, image, symbols, index, slots, histories, sym);
    CellInSlot(lay, k, Wrap(next, lay.size));
    WriteKeepsStore(m, lay, image, symbols, index, slots, histories, sym, data);
    WriteKeepsBytes(m, lay, image, k, next, data);
  }

  // ---------------------------------------------------------------------------
  // Whole runs of writes
  // ---------------------------------------------------------------------------

  ghost function Appended<T>(histories: map<Str, seq<T>>, writes: seq<(Str, T)>): map<Str, seq<T>> {
    map s | s in histories :: histories[s] + Project(writes, s)
  }

  lemma AppendedNext<T>(histories: map<Str, seq<T>>, writes: seq<(Str, T)>)
    requires writes != []
    ensures var (s, x) := writes[0];
            Appended(histories, writes)
            == Appended(if s in histories then histories[s := histories[s] + [x]] else histories, writes[1..])
  {
    var (s, x) := writes[0];
    var histories' := if s in histories then histories[s := histories[s] + [x]] else histories;
    forall q | q in histories
      ensures histories[q] + Project(writes, q) == histories'[q] + Project(writes[1..], q)
    {
      var rest := Project(writes[1..], q);
      if q == s {
        assert Project(writes, q) == [x] + rest;
        assert histories[q] + ([x] + rest) == (histories[q] + [x]) + rest;
      } else {
        assert Project(writes, q) == [] + rest == rest;
      }
    }
    SameMaps(Appended(histories, writes), Appended(histories', writes[1..]));
  }

  /** Where `write` stores a data point, reading the position from the published index. */
  function NextPosition(m: seq<byte>, hdr: nat): int
    requires hdr + INDEX_FIELD + 8 <= |m|
  {
    ReadI64Le(m, hdr + INDEX_FIELD) + 1
  }

  /** The addresses that `write` computes lie in the region, and the position can be published. */
  predicate CanWrite<T(!new)>(m: seq<byte>, lay: Layout, image: Image<T>, at: (nat, nat), x: T) {
    && at.0 + INDEX_FIELD + 8 <= |m| && lay.size > 0
    && 0 <= NextPosition(m, at.0) <= I64_MAX
    && at.1 + Times(lay.cell, Wrap(NextPosition(m, at.0), lay.size)) + |image.encode(x)| <= |m|
  }

  /** The memory after one `write`, from the memory before and the index map alone. */
  function WriteBytes<T(!new)>(m: seq<byte>, lay: Layout, image: Image<T>, index: map<Str, (nat, nat)>, sym: Str,
                               x: T): (m': seq<byte>)
    ensures |m'| == |m|
  {
    if sym in index && CanWrite(m, lay, image, index[sym], x) then
      var (hdr, dataBase) := index[sym];
      var next := NextPosition(m, hdr);
      Patch(Patch(m, dataBase + Times(lay.cell, Wrap(next, lay.size)), image.encode(x)), hdr + INDEX_FIELD,
            I64Bytes(next))
    else m
  }

  function MemoryAfter<T(!new)>(m: seq<byte>, lay: Layout, image: Image<T>, index: map<Str, (nat, nat)>,
                                writes: seq<(Str, T)>): seq<byte>
    decreases |writes|
  {
    if writes == [] then m
    else MemoryAfter(WriteBytes(m, lay, image, index, writes[0].0, writes[0].1), lay, image, index, writes[1..])
  }

  /** What the bytes say is what the histories say: `write` finds the next position of its symbol. */
  lemma WriteBytesIs<T(!new)>(m: seq<byte>, lay: Layout, image: Image<T>, symbols: seq<Str>,
                              index: map<Str, (nat, nat)>, slots: map<Str, nat>, histories: map<Str, seq<T>>,
                              sym: Str, x: T)
    requires image.Sized() && StoreHolds(m, lay, image, symbols, index, slots, histories)
    requires sym in index && lay.size > 0 && |histories[sym]| <= I64_MAX
    ensures CanWrite(m, lay, image, index[sym], x) && NextPosition(m, index[sym].0) == |histories[sym]|
    ensures var m' := WriteBytes(m, lay, image, index, sym, x);
            && StoreHolds(m', lay, image, symbols, index, slots, histories[sym := histories[sym] + [x]])
            && OnlySlotChanged(m, m', lay, slots[sym])
  {
    MemoryShowsIndex(m, lay, image, symbols, index, slots, histories, sym);
    var next := |histories[sym]|;
    var cellAt := index[sym].1 + Times(lay.cell, Wrap(next, lay.size));
    WriteEffect(m, lay, image, symbols, index, slots, histories, sym, x, cellAt, index[sym].0 + INDEX_FIELD);
    WriteBytesFrom(m, lay, image, index, sym, x, next, cellAt);
  }

  /** What a write does when the published index is the one before `next`. */
  lemma WriteBytesFrom<T(!new)>(m: seq<byte>, lay: Layout, image: Image<T>, index: map<Str, (nat, nat)>, sym: Str, x: T,
                                next: nat, cellAt: nat)
    requires sym in index && lay.size > 0 && next <= I64_MAX && index[sym].0 + INDEX_FIELD + 8 <= |m|
    requires ReadI64Le(m, index[sym].0 + INDEX_FIELD) == next - 1
    requires cellAt == index[sym].1 + Times(lay.cell, Wrap(next, lay.size)) && cellAt + |image.encode(x)| <= |m|
    ensures CanWrite(m, lay, image, index[sym], x) && NextPosition(m, index[sym].0) == next
    ensures WriteBytes(m, lay, image, index, sym, x)
            == Patch(Patch(m, cellAt, image.encode(x)), index[sym].0 + INDEX_FIELD, I64Bytes(next))
  {
  }

  lemma NothingAppended<T>(histories: map<Str, seq<T>>)
    ensures Appended(histories, []) == histories
  {
    assert forall q | q in histories :: histories[q] + [] == histories[q];
  }

  /** Any sequence of writes, through any number of laps, refines independent append-only
      histories, one per configured symbol. */
  lemma {:induction false} RunRefinesHistories<T(!new)>(m: seq<byte>, lay: Layout, image: Image<T>, symbols: seq<Str>,
                                                        index: map<Str, (nat, nat)>, slots: map<Str, nat>,
                                                        histories: map<Str, seq<T>>, writes: seq<(Str, T)>)
    requires image.Sized() && StoreHolds(m, lay, image, symbols, index, slots, histories)
    requires lay.size > 0 && forall s | s in histories :: |histories[s]| + |writes| <= I64_MAX
    ensures StoreHolds(MemoryAfter(m, lay, image, index, writes), lay, image, symbols, index, slots,
                       Appended(histories, writes))
    decreases |writes|
  {
    if writes == [] {
      NothingAppended(histories);
    } else {
      var (s, x) := writes[0];
      AppendedNext(histories, writes);
      if s !in index {
        RunRefinesHistories(m, lay, image, symbols, index, slots, histories, writes[1..]);
      } else {
        WriteBytesIs(m, lay, image, symbols, index, slots, histories, s, x);
        RunRefinesHistories(WriteBytes(m, lay, image, index, s, x), lay, image, symbols, index, slots,
                            histories[s := histories[s] + [x]], writes[1..]);
      }
    }
  }

  lemma OtherSlot<T(!new)>(m: seq<byte>, lay: Layout, image: Image<T>, symbols: seq<Str>, index: map<Str, (nat, nat)>,
                           slots: map<Str, nat>, histories: map<Str, seq<T>>, s: Str, t: Str, b: nat)
    requires StoreHolds(m, lay, image, symbols, index, slots, histories) && s in index && t in index && s != t
    requires lay.InSlot(b, slots[t])
    ensures !lay.InSlot(b, slots[s]) && b < |m|
  {
    assert SlotHolds(m, lay, image, symbols, index, slots, histories, s);
    assert SlotHolds(m, lay, image, symbols, index, slots, histories, t);
    if slots[s] < slots[t] {
      SlotsInOrder(lay, slots[s], slots[t]);
    } else {
      SlotsInOrder(lay, slots[t], slots[s]);
    }
  }

  /** ... and the slot of a symbol that the run does not write keeps every byte. */
  lemma {:induction false} RunKeepsOtherSlots<T(!new)>(m: seq<byte>, lay: Layout, image: Image<T>, symbols: seq<Str>,
                                                       index: map<Str, (nat, nat)>, slots: map<Str, nat>,
                                                       histories: map<Str, seq<T>>, writes: seq<(Str, T)>, quiet: Str,
                                                       b: nat)
    requires image.Sized() && StoreHolds(m, lay, image, symbols, index, slots, histories)
    requires lay.size > 0 && forall s | s in histories :: |histories[s]| + |writes| <= I64_MAX
    requires quiet in index && Project(writes, quiet) == [] && lay.InSlot(b, slots[quiet])
    ensures b < |m| == |MemoryAfter(m, lay, image, index, writes)|
            && MemoryAfter(m, lay, image, index, writes)[b] == m[b]
    decreases |writes|
  {
    assert SlotHolds(m, lay, image, symbols, index, slots, histories, quiet);
    if writes != [] {
      var (s, x) := writes[0];
      if s !in index {
        RunKeepsOtherSlots(m, lay, image, symbols, index, slots, histories, writes[1..], quiet, b);
      } else {
        OtherSlot(m, lay, image, symbols, index, slots, histories, s, quiet, b);
        WriteBytesIs(m, lay, image, symbols, index, slots, histories, s, x);
        RunKeepsOtherSlots(WriteBytes(m, lay, image, index, s, x), lay, image, symbols, index, slots,
                           histories[s := histories[s] + [x]], writes[1..], quiet, b);
      }
    }
  }

  /** A reader of the raw memory finds that the published index of a configured symbol is the
      number of writes less one. */
  lemma MemoryShowsIndex<T(!new)>(m: seq<byte>, lay: Layout, image: Image<T>, symbols: seq<Str>,
                                  index: map<Str, (nat, nat)>, slots: map<Str, nat>, histories: map<Str, seq<T>>,
                                  sym: Str)
    requires StoreHolds(m, lay, image, symbols, index, slots, histories) && sym in index
    ensures index[sym].0 + 48 == index[sym].1 <= |m|
    ensures ReadI64Le(m, index[sym].0 + 32) == |histories[sym]| - 1
    ensures histories[sym] != [] ==> lay.size > 0
  {
    assert SlotHolds(m, lay, image, symbols, index, slots, histories, sym);
    ReadBackI64(m, lay.IndexAt(slots[sym]), |histories[sym]| - 1);
  }

  lemma GlobalHeaderParts(count: nat, size: u32)
    ensures var h := GlobalHeader(count, size);
            && h[..8] == U64Bytes(0) && h[8..12] == U32Bytes(count % 0x1_0000_0000) && h[12..16] == U32Bytes(size)
  {
  }

  /** ... that the global header holds the number of configured symbols and the ring size, and that no update was
      ever counted, ... */
  lemma MemoryShowsSizes<T(!new)>(m: seq<byte>, lay: Layout, image: Image<T>, symbols: seq<Str>,
                                  index: map<Str, (nat, nat)>, slots: map<Str, nat>, histories: map<Str, seq<T>>)
    requires StoreHolds(m, lay, image, symbols, index, slots, histories)
    ensures |m| >= 16 && ReadI64Le(m, 0) == 0
    ensures ReadU32Le(m, 8) == |symbols| % 0x1_0000_0000 && ReadU32Le(m, 12) == lay.size
  {
    GlobalHeaderParts(|symbols|, lay.size);
    SubRange(m, 0, 16, 0, 8);
    SubRange(m, 0, 16, 8, 12);
    SubRange(m, 0, 16, 12, 16);
    assert m[0..16] == GlobalHeader(|symbols|, lay.size);
    ReadBackI64(m, 0, 0);
    ReadBackU32(m, 8, |symbols| % 0x1_0000_0000);
    ReadBackU32(m, 12, lay.size);
  }

  /** ... that the instrument header holds the symbol and the ring size, ... */
  lemma MemoryShowsHeader<T(!new)>(m: seq<byte>, lay: Layout, image: Image<T>, symbols: seq<Str>,
                                   index: map<Str, (nat, nat)>, slots: map<Str, nat>, histories: map<Str, seq<T>>,
                                   sym: Str)
    requires StoreHolds(m, lay, image, symbols, index, slots, histories) && sym in index
    ensures var hdr := index[sym].0;
            && hdr + 48 <= |m| && |m[hdr..hdr + 32]| == 32 && ReadU32Le(m, hdr + 40) == lay.size
            && (SymbolFromBytes(m[hdr..hdr + 32]) == sym <==> |sym| <= 32 && 0 !in sym)
  {
    assert SlotHolds(m, lay, image, symbols, index, slots, histories, sym);
    ReadBackU32(m, index[sym].0 + LEN_FIELD, lay.size);
    SymbolRoundTrip(sym);
  }

  /** ... and that each of the last `size` data points is in its cell. */
  lemma MemoryShowsCell<T(!new)>(m: seq<byte>, lay: Layout, image: Image<T>, symbols: seq<Str>,
                                 index: map<Str, (nat, nat)>, slots: map<Str, nat>, histories: map<Str, seq<T>>,
                                 sym: Str, j: int)
    requires image.Sized() && StoreHolds(m, lay, image, symbols, index, slots, histories) && sym in index
    requires 0 <= j < |histories[sym]| && |histories[sym]| - lay.size <= j
    ensures var at := index[sym].1 + Times(lay.cell, Wrap(j, lay.size));
            at + lay.cell <= |m| && image.decode(m[at..at + lay.cell]) == image.Kept(histories[sym][j])
  {
    var k := slots[sym];
    assert SlotHolds(m, lay, image, symbols, index, slots, histories, sym);
    assert Retained(j, |histories[sym]|, lay.size);
    assert CellHolds(m, lay, image, k, Wrap(j, lay.size), histories[sym][j]);
  }

  /** So the cell at the published index, if there is one, is that of the last data point. */
  lemma MemoryShowsLatest<T(!new)>(m: seq<byte>, lay: Layout, image: Image<T>, symbols: seq<Str>,
                                   index: map<Str, (nat, nat)>, slots: map<Str, nat>, histories: map<Str, seq<T>>,
                                   sym: Str)
    requires image.Sized() && StoreHolds(m, lay, image, symbols, index, slots, histories) && sym in index
    ensures var h, hdr := histories[sym], index[sym].0;
            && hdr + INDEX_FIELD + 8 <= |m| && ReadI64Le(m, hdr + INDEX_FIELD) == |h| - 1
            && (h != [] ==>
                  && lay.size > 0
                  && var at := index[sym].1 + Times(lay.cell, Wrap(|h| - 1, lay.size));
                     at + lay.cell <= |m| && image.decode(m[at..at + lay.cell]) == image.Kept(h[|h| - 1]))
  {
    MemoryShowsIndex(m, lay, image, symbols, index, slots, histories, sym);
    if histories[sym] != [] {
      MemoryShowsCell(m, lay, image, symbols, index, slots, histories, sym, |histories[sym]| - 1);
    }
  }

  /** The first `i` slots have been laid out. */
  ghost predicate LaidOut(m: seq<byte>, lay: Layout, symbols: seq<Str>, i: nat) {
    && i <= |symbols| && lay.size <= 0xFFFF_FFFF
    && SHM_HEADER_SIZE <= |m|
    && m[..SHM_HEADER_SIZE] == GlobalHeader(|symbols|, lay.size)
    && forall k: nat {:trigger SlotFresh(m, lay, symbols[k], k)} | k < i :: SlotFresh(m, lay, symbols[k], k)
  }

  lemma LayOutGlobalHeader(m: seq<byte>, lay: Layout, symbols: seq<Str>)
    requires lay.size <= 0xFFFF_FFFF && SHM_HEADER_SIZE <= |m|
    ensures LaidOut(Patch(m, 0, GlobalHeader(|symbols|, lay.size)), lay, symbols, 0)
  {
    PatchReadsBack(m, 0, GlobalHeader(|symbols|, lay.size));
  }

  lemma LayOutNext(m: seq<byte>, lay: Layout, symbols: seq<Str>, i: nat)
    requires i < |symbols| && lay.size <= 0xFFFF_FFFF && |m| == lay.SlotAt(|symbols|)
    requires LaidOut(m, lay, symbols, i)
    ensures lay.SlotAt(i) + lay.SlotSize() <= |m|
    ensures LaidOut(Patch(m, lay.SlotAt(i), SlotHeader(symbols[i], -1, lay.size)), lay, symbols, i + 1)
  {
    SlotsInOrder(lay, i, |symbols|);
    var h := SlotHeader(symbols[i], -1, lay.size);
    PatchElsewhere(m, lay.SlotAt(i), h, 0, SHM_HEADER_SIZE);
    forall k: nat | k < i + 1
      ensures SlotFresh(Patch(m, lay.SlotAt(i), h), lay, symbols[k], k)
    {
      EarlierSlotsKept(m, lay, symbols[i], i, symbols[k], k);
    }
  }

  predicate ZeroBetween(m: seq<byte>, lo: nat, hi: nat) {
    lo <= hi <= |m| && forall b | lo <= b < hi :: m[b] == 0
  }

  /** No data point has been stored in any cell of slot `k`. */
  predicate CellsZero(m: seq<byte>, lay: Layout, k: nat) {
    ZeroBetween(m, lay.SlotAt(k) + INSTRUMENT_HEADER_SIZE, lay.SlotAt(k) + lay.SlotSize())
  }

  /** The cells of the first `i` slots are zero, and so is everything behind these slots. */
  predicate ZeroAfter(m: seq<byte>, lay: Layout, i: nat) {
    ZeroBetween(m, lay.SlotAt(i), |m|) && forall k: nat | k < i :: CellsZero(m, lay, k)
  }

  lemma ZeroAfterNext(m: seq<byte>, lay: Layout, i: nat, h: seq<byte>)
    requires ZeroAfter(m, lay, i) && lay.SlotAt(i) + lay.SlotSize() <= |m| && |h| == INSTRUMENT_HEADER_SIZE
    ensures ZeroAfter(Patch(m, lay.SlotAt(i), h), lay, i + 1)
  {
    var m' := Patch(m, lay.SlotAt(i), h);
    assert forall b | lay.SlotAt(i) + INSTRUMENT_HEADER_SIZE <= b < |m| :: m'[b] == m[b];
    forall k: nat | k < i
      ensures CellsZero(m', lay, k)
    {
      SlotsInOrder(lay, k, i);
      assert CellsZero(m, lay, k);
    }
  }

  /** The index after the first `i` symbols: a repeated symbol points at its last slot. */
  ghost predicate Indexes(index: map<Str, (nat, nat)>, slots: map<Str, nat>, lay: Layout, symbols: seq<Str>) {
    && index.Keys == slots.Keys == (set s | s in symbols)
    && forall s {:trigger LastAt(symbols, s, slots[s])} | s in index ::
         LastAt(symbols, s, slots[s])
         && index[s] == (lay.SlotAt(slots[s]), lay.SlotAt(slots[s]) + INSTRUMENT_HEADER_SIZE)
  }

  lemma IndexNext(index: map<Str, (nat, nat)>, slots: map<Str, nat>, lay: Layout, symbols: seq<Str>, i: nat)
    requires i < |symbols| && Indexes(index, slots, lay, symbols[..i])
    ensures Indexes(index[symbols[i] := (lay.SlotAt(i), lay.SlotAt(i) + INSTRUMENT_HEADER_SIZE)],
                    slots[symbols[i] := i], lay, symbols[..i + 1])
  {
    var sym := symbols[i];
    assert symbols[..i + 1] == symbols[..i] + [sym];
    var index' := index[sym := (lay.SlotAt(i), lay.SlotAt(i) + INSTRUMENT_HEADER_SIZE)];
    var slots' := slots[sym := i];
    forall s | s in index'
      ensures LastAt(symbols[..i + 1], s, slots'[s])
      ensures index'[s] == (lay.SlotAt(slots'[s]), lay.SlotAt(slots'[s]) + INSTRUMENT_HEADER_SIZE)
    {
      assert s != sym ==> LastAt(symbols[..i], s, slots[s]);
    }
  }

  class ShmMdStore<T(!new)> {
    const image: Image<T>
    const bufferSize: u32
    /** The mapped region. */
    const mem: array<byte>
    /** For each symbol the offsets of its instrument header and of its first cell. */
    const index: map<Str, (nat, nat)>

    ghost const symbols: seq<Str>
    ghost const slots: map<Str, nat>
    /** Everything ever written, per symbol. */
    ghost var histories: map<Str, seq<T>>

    function Lay(): Layout {
      Layout(image.size, bufferSize)
    }

    ghost predicate Valid()
      reads this, mem
    {
      && image.Sized()
      && StoreHolds(mem[..], Lay(), image, symbols, index, slots, histories)
    }

    constructor Create(image: Image<T>, symbols: seq<Str>, bufferSize: u32)
      requires image.Sized()
      ensures Valid() && fresh(mem)
      ensures this.image == image && this.symbols == symbols && this.bufferSize == bufferSize
      ensures histories.Keys == (set s | s in symbols) && forall s | s in histories :: histories[s] == []
      ensures forall k: nat | k < |symbols| :: CellsZero(mem[..], Lay(), k)
    {
      var lay := Layout(image.size, bufferSize);
      var total := lay.CalcSize(|symbols|);
      CalcSizeIsLayout(lay, |symbols|);
      var base := new byte[total](_ => 0);
      LayOutGlobalHeader(base[..], lay, symbols);
      Store(base, 0, GlobalHeader(|symbols|, bufferSize));
      assert ZeroAfter(base[..], lay, 0);
      var idx: map<Str, (nat, nat)> := map[];
      ghost var where: map<Str, nat> := map[];
      var offset := SHM_HEADER_SIZE;
      var i := 0;
      while i < |symbols|
        invariant 0 <= i <= |symbols| && offset == lay.SlotAt(i)
        invariant base.Length == lay.SlotAt(|symbols|) && fresh(base) && LaidOut(base[..], lay, symbols, i)
        invariant ZeroAfter(base[..], lay, i)
        invariant Indexes(idx, where, lay, symbols[..i])
      {
        var sym := symbols[i];
        LayOutNext(base[..], lay, symbols, i);
        ZeroAfterNext(base[..], lay, i, SlotHeader(sym, -1, bufferSize));
        Store(base, offset, SlotHeader(sym, -1, bufferSize));
        IndexNext(idx, where, lay, symbols, i);
        idx := idx[sym := (offset, offset + INSTRUMENT_HEADER_SIZE)];
        where := where[sym := i];
        offset := offset + lay.SlotSize();
        i := i + 1;
      }
      assert symbols[..|symbols|] == symbols;
      ghost var none: map<Str, seq<T>> := map s | s in idx :: [];
      FreshStoreHolds(base[..], lay, image, symbols, idx, where, none);
      this.image, this.bufferSize, this.mem, this.index := image, bufferSize, base, idx;
      this.symbols, this.slots, this.histories := symbols, where, none;
    }

    /** Append a data point to a configured symbol's ring. Every byte outside that symbol's slot
        keeps its value. */
    method Write(sym: Str, data: T) returns (ok: bool)
      requires Valid()
      requires sym in histories ==> bufferSize > 0 && |histories[sym]| <= I64_MAX
      modifies this`histories, mem
      ensures Valid()
      ensures ok == (sym in old(histories))
      ensures histories == if ok then old(histories)[sym := old(histories[sym]) + [data]] else old(histories)
      ensures if ok then OnlySlotChanged(old(mem[..]), mem[..], Lay(), slots[sym]) else mem[..] == old(mem[..])
      ensures mem[..] == WriteBytes(old(mem[..]), Lay(), image, index, sym, data)
    {
      if sym in index {
        var (hdr, dataBase) := index[sym];
        ghost var lay, h, m := Lay(), histories[sym], mem[..];
        WriteBytesIs(m, lay, image, symbols, index, slots, histories, sym, data);
        var next := ReadI64Le(mem[..], hdr + INDEX_FIELD) + 1;
        var cellAt := dataBase + Times(image.size, Wrap(next, bufferSize));
        // Store the data point, then publish its position.
        Store(mem, cellAt, image.encode(data));
        Store(mem, hdr + INDEX_FIELD, I64Bytes(next));
        assert mem[..] == WriteBytes(m, lay, image, index, sym, data);
        histories := histories[sym := h + [data]];
        ok := true;
      } else {
        ok := false;
      }
    }

    /** The last data point written for the symbol, as its bytes represent it, if there is one. */
    method ReadLatest(sym: Str) returns (r: Option<T>)
      requires Valid()
      ensures r == if sym in histories && histories[sym] != []
                   then Some(image.Kept(histories[sym][|histories[sym]| - 1]))
                   else None
    {
      if sym !in index {
        return None;
      }
      var (hdr, dataBase) := index[sym];
      MemoryShowsLatest(mem[..], Lay(), image, symbols, index, slots, histories, sym);
      var idx := ReadI64Le(mem[..], hdr + INDEX_FIELD);
      if idx < 0 {
        return None;
      }
      var at := dataBase + Times(image.size, Wrap(idx, bufferSize));
      r := Some(image.decode(mem[..][at..at + image.size]));
    }
  }

  /** A slot that has been laid out and not been written since. */
  ghost predicate SlotFresh(m: seq<byte>, lay: Layout, sym: Str, k: nat) {
    && lay.size <= 0xFFFF_FFFF
    && lay.SlotAt(k) + lay.SlotSize() <= |m|
    && m[lay.SlotAt(k)..lay.SlotAt(k) + INSTRUMENT_HEADER_SIZE] == SlotHeader(sym, -1, lay.size)
  }

  lemma EarlierSlotsKept(m: seq<byte>, lay: Layout, sym: Str, i: nat, other: Str, k: nat)
    requires lay.size <= 0xFFFF_FFFF && lay.SlotAt(i) + lay.SlotSize() <= |m| && k <= i
    requires if k < i then SlotFresh(m, lay, other, k) else other == sym
    ensures SlotFresh(Patch(m, lay.SlotAt(i), SlotHeader(sym, -1, lay.size)), lay, other, k)
  {
    var h := SlotHeader(sym, -1, lay.size);
    if k < i {
      SlotsInOrder(lay, k, i);
      PatchElsewhere(m, lay.SlotAt(i), h, lay.SlotAt(k), lay.SlotAt(k) + INSTRUMENT_HEADER_SIZE);
    } else {
      PatchReadsBack(m, lay.SlotAt(i), h);
    }
  }
}
