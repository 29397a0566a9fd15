/** The two deduplicators: a per-symbol monotone filter on update ids, and a direct-mapped table of
    hashes for trades whose ids are UUIDs. */
module Dedup {
  import opened Bytes
  import opened Symbols
  import opened MarketData
  import opened Streams

  // ---------------------------------------------------------------------------
  // Update ids
  // ---------------------------------------------------------------------------

  function LastOrZero(last: map<Str, u64>, sym: Str): u64 {
    if sym in last then last[sym] else 0
  }

  predicate IsNew(last: map<Str, u64>, sym: Str, id: u64) {
    id > LastOrZero(last, sym)
  }

  /** A rejected id still leaves an entry for its symbol. */
  function Noted(last: map<Str, u64>, sym: Str, id: u64): map<Str, u64> {
    last[sym := if IsNew(last, sym, id) then id else LastOrZero(last, sym)]
  }

  class UpdateIdDedup {
    var lastIds: map<Str, u64>

    constructor ()
      ensures lastIds == map[]
    {
      lastIds := map[];
    }

    method CheckAndUpdate(sym: Str, updateId: u64) returns (isNew: bool)
      modifies this
      ensures isNew == IsNew(old(lastIds), sym, updateId)
      ensures lastIds == Noted(old(lastIds), sym, updateId)
    {
      if sym !in lastIds {
        lastIds := lastIds[sym := 0];
      }
      if updateId > lastIds[sym] {
        lastIds := lastIds[sym := updateId];
        isNew := true;
      } else {
        isNew := false;
      }
    }

    /** In terms of the arrivals that led to this state: the largest id that came for the symbol. */
    method LastId(sym: Str) returns (id: Option<u64>)
      ensures id.Some? <==> sym in lastIds
      ensures id.Some? ==> id.value == LastOrZero(lastIds, sym)
      ensures forall arrivals | lastIds == NotedAll(arrivals) :: id == LargestOf(Project(arrivals, sym))
    {
      forall arrivals | lastIds == NotedAll(arrivals)
        ensures sym in lastIds <==> Project(arrivals, sym) != []
        ensures sym in lastIds ==> lastIds[sym] == Largest(Project(arrivals, sym))
      {
        LastIdIs(arrivals, sym);
      }
      id := if sym in lastIds then Some(lastIds[sym]) else None;
    }

    method Clear()
      modifies this
      ensures lastIds == map[]
    {
      lastIds := map[];
    }
  }

  /** The filter's state after a stream of arrivals, and the arrivals it lets through. */
  function NotedAll(items: seq<(Str, u64)>): map<Str, u64> {
    if items == [] then map[]
    else
      var n := |items| - 1;
      Noted(NotedAll(items[..n]), items[n].0, items[n].1)
  }

  function AcceptedAll(items: seq<(Str, u64)>): seq<(Str, u64)> {
    if items == [] then []
    else
      var n := |items| - 1;
      if IsNew(NotedAll(items[..n]), items[n].0, items[n].1) then AcceptedAll(items[..n]) + [items[n]]
      else AcceptedAll(items[..n])
  }

  /** An id is larger than everything before it, and than zero. */
  predicate IsRecord(ids: seq<u64>, k: nat)
    requires k < |ids|
  {
    ids[k] > 0 && forall j | 0 <= j < k :: ids[j] < ids[k]
  }

  /** The strict left-to-right maxima of a stream of ids. */
  function Records(ids: seq<u64>): seq<u64> {
    if ids == [] then []
    else
      var n := |ids| - 1;
      Records(ids[..n]) + if IsRecord(ids, n) then [ids[n]] else []
  }

  function Largest(ids: seq<u64>): (m: u64)
    ensures forall i | 0 <= i < |ids| :: ids[i] <= m
    ensures m == 0 || m in ids
  {
    if ids == [] then 0 else
      var rest := Largest(ids[1..]);
      if ids[0] > rest then ids[0] else rest
  }

  /** None for no ids at all. */
  function LargestOf(ids: seq<u64>): Option<u64> {
    if ids == [] then None else Some(Largest(ids))
  }

  lemma LargestSnoc(ids: seq<u64>, id: u64)
    ensures Largest(ids + [id]) == if id > Largest(ids) then id else Largest(ids)
    ensures IsRecord(ids + [id], |ids|) <==> id > Largest(ids)
  {
    var all := ids + [id];
    assert forall i | 0 <= i < |ids| :: all[i] == ids[i];
    assert all[|ids|] == id;
  }

  lemma RecordsSnoc(ids: seq<u64>, id: u64)
    ensures Records(ids + [id]) == if id > Largest(ids) then Records(ids) + [id] else Records(ids)
  {
    LargestSnoc(ids, id);
    assert (ids + [id])[..|ids|] == ids;
  }

  lemma OneMoreArrival(before: seq<(Str, u64)>, sym: Str, id: u64)
    ensures NotedAll(before + [(sym, id)]) == Noted(NotedAll(before), sym, id)
    ensures AcceptedAll(before + [(sym, id)])
            == AcceptedAll(before) + if IsNew(NotedAll(before), sym, id) then [(sym, id)] else []
  {
    assert (before + [(sym, id)])[..|before|] == before;
  }

  lemma OneMoreRecord(ids: seq<u64>, id: u64)
    ensures Records(ids + [id]) == Records(ids) + if id > Largest(ids) then [id] else []
    ensures Largest(ids + [id]) == if id > Largest(ids) then id else Largest(ids)
  {
    RecordsSnoc(ids, id);
    LargestSnoc(ids, id);
  }

  /** For every interleaving of symbols, what is let through for one symbol is the strict maxima of
      that symbol's own arrivals, and what the filter remembers is their maximum. */
  lemma {:induction false} AcceptedAreRecords(items: seq<(Str, u64)>, s: Str)
    ensures Project(AcceptedAll(items), s) == Records(Project(items, s))
    ensures LastOrZero(NotedAll(items), s) == Largest(Project(items, s))
  {
    if items != [] {
      var n := |items| - 1;
      var before, x := items[..n], items[n];
      assert items == before + [(x.0, x.1)];
      AcceptedAreRecords(before, s);
      OneMoreArrival(before, x.0, x.1);
      ProjectSnoc(before, x.0, x.1, s);
      ProjectSnoc(AcceptedAll(before), x.0, x.1, s);
      OneMoreRecord(Project(before, s), x.1);
    }
  }

  /** The filter knows a symbol exactly when something has come for it, be it rejected, and then holds the
      largest id that came. */
  lemma {:induction false} LastIdIs(arrivals: seq<(Str, u64)>, s: Str)
    ensures s in NotedAll(arrivals) <==> Project(arrivals, s) != []
    ensures s in NotedAll(arrivals) ==> NotedAll(arrivals)[s] == Largest(Project(arrivals, s))
  {
    AcceptedAreRecords(arrivals, s);
    if arrivals != [] {
      var n := |arrivals| - 1;
      var before, x := arrivals[..n], arrivals[n];
      assert arrivals == before + [x] && x == (x.0, x.1);
      LastIdIs(before, s);
      ProjectSnoc(before, x.0, x.1, s);
    }
  }

  // ---------------------------------------------------------------------------
  // Hashes of UUIDs
  // ---------------------------------------------------------------------------

  const UUID_TABLE_SIZE: nat := 8192

  /** `hash & (UUID_TABLE_SIZE - 1)` */
  function SlotOf(hash: u64): (i: nat)
    ensures i < UUID_TABLE_SIZE
  {
    hash % UUID_TABLE_SIZE
  }

  /** The most recent of these hashes that fell into a slot, or 0. */
  function LastInSlot(hashes: seq<u64>, slot: nat): u64 {
    if hashes == [] then 0
    else if SlotOf(hashes[|hashes| - 1]) == slot then hashes[|hashes| - 1]
    else LastInSlot(hashes[..|hashes| - 1], slot)
  }

  class UuidDedup {
    const table: array<u64>
    /** xxHash64 of a string, of which nothing is assumed. */
    const hashUuid: Str -> u64
    /** The hash of every id checked so far. */
    ghost var history: seq<u64>

    ghost predicate Valid()
      reads this, table
    {
      table.Length == UUID_TABLE_SIZE && forall i | 0 <= i < UUID_TABLE_SIZE :: table[i] == LastInSlot(history, i)
    }

    constructor (hashUuid: Str -> u64)
      ensures Valid() && fresh(table) && history == [] && this.hashUuid == hashUuid
    {
      this.hashUuid := hashUuid;
      table := new u64[UUID_TABLE_SIZE](_ => 0);
      history := [];
    }

    method CheckAndInsert(uuid: Str) returns (isNew: bool)
      requires Valid()
      modifies this, table
      ensures Valid()
      ensures history == old(history) + [hashUuid(uuid)]
      ensures isNew == !Seen(old(history), hashUuid(uuid))
    {
      var hash := hashUuid(uuid);
      var idx := SlotOf(hash);
      SeenIsLast(history, hash);
      assert (history + [hash])[..|history|] == history;
      if table[idx] == hash {
        isNew := false;
      } else {
        table[idx] := hash;
        isNew := true;
      }
      history := history + [hash];
    }

    method Clear()
      requires Valid()
      modifies this, table
      ensures Valid() && history == []
    {
      forall i | 0 <= i < table.Length {
        table[i] := 0;
      }
      history := [];
    }
  }

  /** Position `i` is the most recent one whose hash has the same low 13 bits as `hash`. */
  predicate MostRecentAlike(hashes: seq<u64>, i: int, hash: u64) {
    && 0 <= i < |hashes| && hashes[i] % 8192 == hash % 8192
    && forall j | i < j < |hashes| :: hashes[j] % 8192 != hash % 8192
  }

  predicate NoneAlike(hashes: seq<u64>, hash: u64) {
    forall j | 0 <= j < |hashes| :: hashes[j] % 8192 != hash % 8192
  }

  /** The verdict in terms of the history alone: the most recent earlier id with the same low 13
      hash bits had the same hash, or there was none and the hash is 0. */
  ghost predicate Seen(hashes: seq<u64>, hash: u64) {
    || (exists i :: MostRecentAlike(hashes, i, hash) && hashes[i] == hash)
    || (NoneAlike(hashes, hash) && hash == 0)
  }

  lemma {:induction false} LastInSlotAt(hashes: seq<u64>, hash: u64) returns (i: int)
    ensures if i < 0 then NoneAlike(hashes, hash) && LastInSlot(hashes, hash % 8192) == 0
            else MostRecentAlike(hashes, i, hash) && LastInSlot(hashes, hash % 8192) == hashes[i]
  {
    if hashes == [] {
      i := -1;
    } else {
      var n := |hashes| - 1;
      if SlotOf(hashes[n]) == SlotOf(hash) {
        i := n;
      } else {
        i := LastInSlotAt(hashes[..n], hash);
      }
    }
  }

  lemma SeenIsLast(hashes: seq<u64>, hash: u64)
    ensures Seen(hashes, hash) <==> LastInSlot(hashes, hash % 8192) == hash
  {
    var i := LastInSlotAt(hashes, hash);
    if i >= 0 {
      forall k | MostRecentAlike(hashes, k, hash)
        ensures k == i
      {
      }
    }
  }

  /** An id that came before is let through again only if a different hash with the same low 13 bits has come
      since. */
  lemma RepeatNeedsEviction(hashes: seq<u64>, i: nat, hash: u64)
    requires i < |hashes| && hashes[i] == hash && !Seen(hashes, hash)
    ensures exists j :: i < j < |hashes| && hashes[j] % 8192 == hash % 8192 && hashes[j] != hash
  {
    var k := LastInSlotAt(hashes, hash);
    SeenIsLast(hashes, hash);
    assert k >= i;
  }

  /** A new hash is turned away only when it is 0 and none with 13 low zero bits has come: no id whose hash is
      not zero and has not come before is lost. */
  lemma FirstTimeIsNew(hashes: seq<u64>, hash: u64)
    requires hash !in hashes
    ensures Seen(hashes, hash) <==> hash == 0 && NoneAlike(hashes, hash)
  {
  }
}
