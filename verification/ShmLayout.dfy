/** How the shared-memory region is cut into a global header and one slot per instrument, and
    what a ring write does to its bytes. Everything here is about byte sequences; the store
    itself, over a mutable array, is in ShmStore. */
module ShmLayout {
  import opened Bytes
  import opened Multiples
  import opened Symbols

  const SHM_HEADER_SIZE: nat := 16
  const INSTRUMENT_HEADER_SIZE: nat := 48
  const INDEX_FIELD: nat := 32
  const LEN_FIELD: nat := 40

  /** The byte image of a plain `Copy` type: every value is so many bytes, and a value that the bytes can
      represent comes back from them. `encode` rounds the others (a real number that is no `f64`, say). */
  datatype Image<!T(!new)> = Image(size: nat, encode: T -> seq<byte>, decode: seq<byte> -> T) {
    ghost predicate Sized() {
      forall x :: |encode(x)| == size
    }

    /** What a copy of the bytes of `x` is. */
    function Kept(x: T): T {
      decode(encode(x))
    }
  }

  // ---------------------------------------------------------------------------
  // Geometry
  // ---------------------------------------------------------------------------

  /** `cell` is the size of one data point, `size` the number of cells of every ring. */
  datatype Layout = Layout(cell: nat, size: nat) {

    function SlotSize(): nat {
      INSTRUMENT_HEADER_SIZE + Times(cell, size)
    }

    /** The offset that the layout loop reaches after `k` slots. */
    function SlotAt(k: nat): nat {
      SHM_HEADER_SIZE + Times(SlotSize(), k)
    }

    function IndexAt(k: nat): nat {
      SlotAt(k) + INDEX_FIELD
    }

    function CellAt(k: nat, c: nat): nat {
      SlotAt(k) + INSTRUMENT_HEADER_SIZE + Times(cell, c)
    }

    predicate InSlot(b: int, k: nat) {
      SlotAt(k) <= b < SlotAt(k) + SlotSize()
    }

    /** The size requested from the operating system. */
    function CalcSize(count: nat): nat {
      SHM_HEADER_SIZE + (INSTRUMENT_HEADER_SIZE + cell * size) * count
    }
  }

  lemma SlotsInOrder(lay: Layout, a: nat, b: nat)
    requires a < b
    ensures lay.SlotAt(a) + lay.SlotSize() <= lay.SlotAt(b)
  {
    TimesMonotone(lay.SlotSize(), a, b);
  }

  lemma CellInSlot(lay: Layout, k: nat, c: nat)
    requires c < lay.size
    ensures lay.CellAt(k, c) + lay.cell <= lay.SlotAt(k) + lay.SlotSize()
  {
    TimesMonotone(lay.cell, c, lay.size);
  }

  lemma CellsInOrder(lay: Layout, k: nat, c: nat, d: nat)
    requires c < d
    ensures lay.CellAt(k, c) + lay.cell <= lay.CellAt(k, d)
  {
    TimesMonotone(lay.cell, c, d);
  }

  lemma CalcSizeIsLayout(lay: Layout, count: nat)
    ensures lay.CalcSize(count) == lay.SlotAt(count)
  {
    TimesIsProduct(lay.cell, lay.size);
    TimesIsProduct(lay.SlotSize(), count);
  }

  lemma {:induction false} SomeSlot(lay: Layout, count: nat, b: nat) returns (k: nat)
    requires SHM_HEADER_SIZE <= b < lay.SlotAt(count)
    ensures k < count && lay.InSlot(b, k)
  {
    if lay.SlotAt(count - 1) <= b {
      k := count - 1;
    } else {
      k := SomeSlot(lay, count - 1, b);
    }
  }

  /** The slots start right after the global header, end exactly where `calc_size` says, and every
      byte between belongs to one slot and to no other. */
  lemma SlotsTileRegion(lay: Layout, count: nat, b: nat)
    requires SHM_HEADER_SIZE <= b < lay.CalcSize(count)
    ensures exists k: nat :: k < count && lay.InSlot(b, k)
    ensures forall i: nat, j: nat :: lay.InSlot(b, i) && lay.InSlot(b, j) ==> i == j
    ensures lay.SlotAt(0) == SHM_HEADER_SIZE && lay.SlotAt(count) == lay.CalcSize(count)
    ensures lay.CalcSize(count) == 16 + (48 + lay.cell * lay.size) * count
  {
    CalcSizeIsLayout(lay, count);
    var k := SomeSlot(lay, count, b);
    forall i: nat, j: nat | lay.InSlot(b, i) && lay.InSlot(b, j)
      ensures i == j
    {
      if i < j { SlotsInOrder(lay, i, j); } else if j < i { SlotsInOrder(lay, j, i); }
    }
  }

  /** Within one lap of the ring no two positions share a cell. */
  lemma {:induction false} LapIsInjective(a: nat, b: nat, n: nat)
    requires a < b < a + n
    ensures Wrap(a, n) != Wrap(b, n)
  {
    if a >= n {
      LapIsInjective(a - n, b - n, n);
    }
  }

  // ---------------------------------------------------------------------------
  // Contents of a slot
  // ---------------------------------------------------------------------------

  function SlotHeader(sym: Str, index: i64, size: u32): (h: seq<byte>)
    ensures |h| == INSTRUMENT_HEADER_SIZE
  {
    SymbolToBytes(sym) + I64Bytes(index) + U32Bytes(size) + Zeros(4)
  }

  predicate HeaderIntact(m: seq<byte>, lay: Layout, k: nat, sym: Str) {
    && lay.SlotAt(k) + INSTRUMENT_HEADER_SIZE <= |m|
    && m[lay.SlotAt(k)..lay.SlotAt(k) + INDEX_FIELD] == SymbolToBytes(sym)
    && lay.size <= 0xFFFF_FFFF
    && m[lay.SlotAt(k) + LEN_FIELD..lay.SlotAt(k) + LEN_FIELD + 4] == U32Bytes(lay.size)
  }

  /** Position `j` of a history of length `n` has not been overwritten yet. */
  predicate Retained(j: int, n: nat, size: nat) {
    0 <= j < n && n - size <= j
  }

  /** Slot `k` of memory `m` is the ring image of the append-only history `h`: the index is the
      position of the last entry, and each of the last `size` entries is in its cell. */
  ghost predicate HoldsHistory<T(!new)>(m: seq<byte>, lay: Layout, image: Image<T>, k: nat, h: seq<T>) {
    && lay.SlotAt(k) + lay.SlotSize() <= |m|
    && |h| - 1 <= I64_MAX
    && m[lay.IndexAt(k)..lay.IndexAt(k) + 8] == I64Bytes(|h| - 1)
    && (h != [] ==> lay.size > 0)
    && forall j :: Retained(j, |h|, lay.size) ==> CellHolds(m, lay, image, k, Wrap(j, lay.size), h[j])
  }

  ghost predicate CellHolds<T(!new)>(m: seq<byte>, lay: Layout, image: Image<T>, k: nat, c: nat, x: T) {
    && lay.CellAt(k, c) + lay.cell <= |m|
    && m[lay.CellAt(k, c)..lay.CellAt(k, c) + lay.cell] == image.encode(x)
  }

  /** Memory after one write to slot `k` whose published index was `next - 1`: first the cell, then the index. */
  function Written<T(!new)>(m: seq<byte>, lay: Layout, image: Image<T>, k: nat, next: i64, x: T): seq<byte>
    requires next >= 0 && lay.size > 0 && |image.encode(x)| == lay.cell
    requires lay.SlotAt(k) + lay.SlotSize() <= |m|
  {
    CellInSlot(lay, k, Wrap(next, lay.size));
    Patch(Patch(m, lay.CellAt(k, Wrap(next, lay.size)), image.encode(x)), lay.IndexAt(k), I64Bytes(next))
  }

  lemma HeaderReadsBack(m: seq<byte>, s: nat, sym: Str, index: i64, size: u32)
    requires s + INSTRUMENT_HEADER_SIZE <= |m|
    requires m[s..s + INSTRUMENT_HEADER_SIZE] == SlotHeader(sym, index, size)
    ensures m[s..s + INDEX_FIELD] == SymbolToBytes(sym)
    ensures m[s + INDEX_FIELD..s + INDEX_FIELD + 8] == I64Bytes(index)
            && m[s + LEN_FIELD..s + LEN_FIELD + 4] == U32Bytes(size)
  {
    var h := SlotHeader(sym, index, size);
    SubRange(m, s, INSTRUMENT_HEADER_SIZE, 0, INDEX_FIELD);
    SubRange(m, s, INSTRUMENT_HEADER_SIZE, INDEX_FIELD, LEN_FIELD);
    SubRange(m, s, INSTRUMENT_HEADER_SIZE, LEN_FIELD, LEN_FIELD + 4);
    assert h[0..INDEX_FIELD] == SymbolToBytes(sym);
    assert h[INDEX_FIELD..LEN_FIELD] == I64Bytes(index);
    assert h[LEN_FIELD..LEN_FIELD + 4] == U32Bytes(size);
  }

  lemma FreshSlot<T(!new)>(m: seq<byte>, lay: Layout, image: Image<T>, k: nat, sym: Str)
    requires lay.size <= 0xFFFF_FFFF && lay.SlotAt(k) + lay.SlotSize() <= |m|
    requires m[lay.SlotAt(k)..lay.SlotAt(k) + INSTRUMENT_HEADER_SIZE] == SlotHeader(sym, -1, lay.size)
    ensures HeaderIntact(m, lay, k, sym) && HoldsHistory(m, lay, image, k, [])
  {
    HeaderReadsBack(m, lay.SlotAt(k), sym, -1, lay.size);
  }

  /** A write changes no byte outside its slot, and not the slot's symbol and length either. */
  lemma WriteStaysInSlot<T(!new)>(m: seq<byte>, lay: Layout, image: Image<T>, k: nat, next: i64, x: T, lo: nat, hi: nat)
    requires next >= 0 && lay.size > 0 && |image.encode(x)| == lay.cell
    requires lay.SlotAt(k) + lay.SlotSize() <= |m| && lo <= hi <= |m|
    requires || hi <= lay.SlotAt(k) + INDEX_FIELD
             || (lay.SlotAt(k) + LEN_FIELD <= lo && hi <= lay.SlotAt(k) + INSTRUMENT_HEADER_SIZE)
             || lay.SlotAt(k) + lay.SlotSize() <= lo
    ensures Written(m, lay, image, k, next, x)[lo..hi] == m[lo..hi]
  {
    CellInSlot(lay, k, Wrap(next, lay.size));
    var m' := Patch(m, lay.CellAt(k, Wrap(next, lay.size)), image.encode(x));
    PatchElsewhere(m, lay.CellAt(k, Wrap(next, lay.size)), image.encode(x), lo, hi);
    PatchElsewhere(m', lay.IndexAt(k), I64Bytes(next), lo, hi);
  }

  /** The two memories differ at most in slot `k`. */
  ghost predicate OnlySlotChanged(m: seq<byte>, m': seq<byte>, lay: Layout, k: nat) {
    |m| == |m'| && forall b | 0 <= b < |m| && !lay.InSlot(b, k) :: m'[b] == m[b]
  }

  lemma WriteKeepsBytes<T(!new)>(m: seq<byte>, lay: Layout, image: Image<T>, k: nat, next: i64, x: T)
    requires next >= 0 && lay.size > 0 && |image.encode(x)| == lay.cell
    requires lay.SlotAt(k) + lay.SlotSize() <= |m|
    ensures OnlySlotChanged(m, Written(m, lay, image, k, next, x), lay, k)
  {
    forall b | 0 <= b < |m| && !lay.InSlot(b, k)
      ensures Written(m, lay, image, k, next, x)[b] == m[b]
    {
      WriteStaysInSlot(m, lay, image, k, next, x, b, b + 1);
      assert Written(m, lay, image, k, next, x)[b..b + 1][0] == m[b..b + 1][0];
    }
  }

  lemma WriteKeepsHeader<T(!new)>(m: seq<byte>, lay: Layout, image: Image<T>, k: nat, next: i64, x: T, k': nat,
                                  sym: Str)
    requires next >= 0 && lay.size > 0 && |image.encode(x)| == lay.cell
    requires lay.SlotAt(k) + lay.SlotSize() <= |m|
    requires HeaderIntact(m, lay, k', sym)
    ensures HeaderIntact(Written(m, lay, image, k, next, x), lay, k', sym)
  {
    var s := lay.SlotAt(k');
    if k < k' { SlotsInOrder(lay, k, k'); } else if k' < k { SlotsInOrder(lay, k', k); }
    WriteStaysInSlot(m, lay, image, k, next, x, s, s + INDEX_FIELD);
    WriteStaysInSlot(m, lay, image, k, next, x, s + LEN_FIELD, s + LEN_FIELD + 4);
  }

  /** Another cell of the same slot is not touched by a write. */
  lemma WriteKeepsCell<T(!new)>(m: seq<byte>, lay: Layout, image: Image<T>, k: nat, next: i64, x: T, d: nat)
    requires next >= 0 && lay.size > 0 && |image.encode(x)| == lay.cell
    requires lay.SlotAt(k) + lay.SlotSize() <= |m|
    requires d < lay.size && d != Wrap(next, lay.size)
    ensures lay.CellAt(k, d) + lay.cell <= |m|
    ensures Written(m, lay, image, k, next, x)[lay.CellAt(k, d)..lay.CellAt(k, d) + lay.cell]
         == m[lay.CellAt(k, d)..lay.CellAt(k, d) + lay.cell]
  {
    var c := Wrap(next, lay.size);
    CellInSlot(lay, k, c);
    CellInSlot(lay, k, d);
    if d < c { CellsInOrder(lay, k, d, c); } else { CellsInOrder(lay, k, c, d); }
    var lo := lay.CellAt(k, d);
    PatchElsewhere(m, lay.CellAt(k, c), image.encode(x), lo, lo + lay.cell);
    PatchElsewhere(Patch(m, lay.CellAt(k, c), image.encode(x)), lay.IndexAt(k), I64Bytes(next), lo, lo + lay.cell);
  }

  /** A write stores the data point in its cell and publishes its position. */
  lemma WriteLands<T(!new)>(m: seq<byte>, lay: Layout, image: Image<T>, k: nat, next: i64, x: T)
    requires next >= 0 && lay.size > 0 && |image.encode(x)| == lay.cell
    requires lay.SlotAt(k) + lay.SlotSize() <= |m|
    ensures CellHolds(Written(m, lay, image, k, next, x), lay, image, k, Wrap(next, lay.size), x)
    ensures Written(m, lay, image, k, next, x)[lay.IndexAt(k)..lay.IndexAt(k) + 8] == I64Bytes(next)
  {
    var c := Wrap(next, lay.size);
    CellInSlot(lay, k, c);
    var lo := lay.CellAt(k, c);
    var m1 := Patch(m, lo, image.encode(x));
    PatchReadsBack(m, lo, image.encode(x));
    PatchElsewhere(m1, lay.IndexAt(k), I64Bytes(next), lo, lo + lay.cell);
    PatchReadsBack(m1, lay.IndexAt(k), I64Bytes(next));
  }

  /** Writing appends to the slot's own history, whatever the number of laps already made. */
  lemma WriteAppends<T(!new)>(m: seq<byte>, lay: Layout, image: Image<T>, k: nat, h: seq<T>, x: T)
    requires lay.size > 0 && |image.encode(x)| == lay.cell && |h| <= I64_MAX
    requires HoldsHistory(m, lay, image, k, h)
    ensures HoldsHistory(Written(m, lay, image, k, |h|, x), lay, image, k, h + [x])
  {
    var m' := Written(m, lay, image, k, |h|, x);
    WriteLands(m, lay, image, k, |h|, x);
    forall j | Retained(j, |h| + 1, lay.size)
      ensures CellHolds(m', lay, image, k, Wrap(j, lay.size), (h + [x])[j])
    {
      if j < |h| {
        LapIsInjective(j, |h|, lay.size);
        WriteKeepsCell(m, lay, image, k, |h|, x, Wrap(j, lay.size));
        assert Retained(j, |h|, lay.size);
      }
    }
  }

  /** Writing to slot `k` leaves the history held by every other slot as it was. */
  lemma WriteKeepsOthers<T(!new)>(m: seq<byte>, lay: Layout, image: Image<T>, k: nat, next: i64, x: T, k': nat,
                                  h: seq<T>)
    requires next >= 0 && lay.size > 0 && |image.encode(x)| == lay.cell && k != k'
    requires lay.SlotAt(k) + lay.SlotSize() <= |m|
    requires HoldsHistory(m, lay, image, k', h)
    ensures HoldsHistory(Written(m, lay, image, k, next, x), lay, image, k', h)
  {
    var m' := Written(m, lay, image, k, next, x);
    if k < k' { SlotsInOrder(lay, k, k'); } else { SlotsInOrder(lay, k', k); }
    WriteStaysInSlot(m, lay, image, k, next, x, lay.IndexAt(k'), lay.IndexAt(k') + 8);
    forall j | Retained(j, |h|, lay.size)
      ensures CellHolds(m', lay, image, k', Wrap(j, lay.size), h[j])
    {
      var d := Wrap(j, lay.size);
      CellInSlot(lay, k', d);
      WriteStaysInSlot(m, lay, image, k, next, x, lay.CellAt(k', d), lay.CellAt(k', d) + lay.cell);
    }
  }
}
