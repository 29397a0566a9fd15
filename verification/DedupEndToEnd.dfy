/** Which messages of an arbitrary stream are let through, by kind and symbol, with the default
    deduplicator for every kind. */
module DedupEndToEnd {
  import opened Bytes
  import opened Symbols
  import opened MarketData
  import opened Streams
  import opened Dedup
  import opened RedundantFeeds
  import opened DedupRules
  import opened DedupWorker

  /** The messages of one kind for one symbol. */
  function Select(msgs: seq<MarketDataMsg>, k: Kind, s: Str): seq<MarketDataMsg> {
    if msgs == [] then []
    else
      var n := |msgs| - 1;
      if KindOf(msgs[n]) == k && SymOf(msgs[n]) == s then Select(msgs[..n], k, s) + [msgs[n]]
      else Select(msgs[..n], k, s)
  }

  function Ids(msgs: seq<MarketDataMsg>): (ids: seq<u64>)
    ensures |ids| == |msgs| && forall i | 0 <= i < |ids| :: ids[i] == IdOf(msgs[i])
  {
    seq(|msgs|, i requires 0 <= i < |msgs| => IdOf(msgs[i]))
  }

  lemma {:induction false} ProjectItems(msgs: seq<MarketDataMsg>, k: Kind, s: Str)
    ensures Project(Items(msgs, k), s) == Ids(Select(msgs, k, s))
  {
    if msgs != [] {
      var n := |msgs| - 1;
      ProjectItems(msgs[..n], k, s);
      if KindOf(msgs[n]) == k {
        ProjectSnoc(Items(msgs[..n], k), SymOf(msgs[n]), IdOf(msgs[n]), s);
      }
    }
  }

  /** The filter for one kind sees only that kind. */
  lemma {:induction false} AcceptedByKind(msgs: seq<MarketDataMsg>, k: Kind)
    ensures Items(Accepted(msgs, None), k) == AcceptedAll(Items(msgs, k))
  {
    if msgs != [] {
      var n := |msgs| - 1;
      AcceptedByKind(msgs[..n], k);
      var acc, m := Accepted(msgs[..n], None), msgs[n];
      assert (acc + [m])[..|acc|] == acc;
      if KindOf(m) == k {
        var items := Items(msgs[..n], k);
        assert (items + [(SymOf(m), IdOf(m))])[..|items|] == items;
      }
    }
  }

  predicate InStream(m: MarketDataMsg, k: Kind, s: Str) {
    KindOf(m) == k && SymOf(m) == s
  }

  /** `i` is the first of the messages of this kind and symbol to bear the highest id among them. */
  ghost predicate FirstOfHighest(msgs: seq<MarketDataMsg>, i: nat, k: Kind, s: Str) {
    && i < |msgs| && InStream(msgs[i], k, s)
    && forall j | 0 <= j < |msgs| && InStream(msgs[j], k, s) ::
         IdOf(msgs[j]) <= IdOf(msgs[i]) && (j < i ==> IdOf(msgs[j]) < IdOf(msgs[i]))
  }

  lemma SelectNext(acc: seq<MarketDataMsg>, m: MarketDataMsg, k: Kind, s: Str)
    ensures Select(acc + [m], k, s) == if InStream(m, k, s) then Select(acc, k, s) + [m] else Select(acc, k, s)
  {
    assert (acc + [m])[..|acc|] == acc;
  }

  lemma {:induction false} NotedBounds(msgs: seq<MarketDataMsg>, k: Kind, s: Str, j: nat)
    requires j < |msgs| && InStream(msgs[j], k, s)
    ensures IdOf(msgs[j]) <= LastOrZero(NotedAll(Items(msgs, k)), s)
  {
    var n := |msgs| - 1;
    assert msgs == msgs[..n] + [msgs[n]];
    NotedNext(msgs[..n], msgs[n], k);
    if j < n {
      NotedBounds(msgs[..n], k, s, j);
    }
  }

  /** What one more message does to a symbol's last id. */
  lemma LastNext(before: seq<MarketDataMsg>, m: MarketDataMsg, k: Kind, s: Str)
    ensures var last := LastOrZero(NotedAll(Items(before, k)), s);
            LastOrZero(NotedAll(Items(before + [m], k)), s)
            == if InStream(m, k, s) && IdOf(m) > last then IdOf(m) else last
  {
    NotedNext(before, m, k);
  }

  /** What one more message does to the messages let through for a symbol. */
  lemma SelectedNext(before: seq<MarketDataMsg>, m: MarketDataMsg, k: Kind, s: Str)
    ensures var a := Select(Accepted(before, None), k, s);
            Select(Accepted(before + [m], None), k, s)
            == if InStream(m, k, s) && IdOf(m) > LastOrZero(NotedAll(Items(before, k)), s) then a + [m] else a
  {
    assert (before + [m])[..|before|] == before;
    SelectNext(Accepted(before, None), m, k, s);
  }

  /** With `last` as the filter's id and `through` as the messages let through for the symbol,
      `i` is the message let through last. */
  ghost predicate LetThroughLast(msgs: seq<MarketDataMsg>, i: nat, k: Kind, s: Str, last: u64,
                                 through: seq<MarketDataMsg>) {
    FirstOfHighest(msgs, i, k, s) && IdOf(msgs[i]) == last && through != [] && msgs[i] == through[|through| - 1]
  }

  lemma LastIsNew(before: seq<MarketDataMsg>, m: MarketDataMsg, k: Kind, s: Str, through: seq<MarketDataMsg>)
    requires InStream(m, k, s) && IdOf(m) > LastOrZero(NotedAll(Items(before, k)), s)
    ensures LetThroughLast(before + [m], |before|, k, s, IdOf(m), through + [m])
  {
    forall j | 0 <= j < |before| && InStream(before[j], k, s)
      ensures IdOf(before[j]) < IdOf(m)
    {
      NotedBounds(before, k, s, j);
    }
  }

  lemma LastIsKept(before: seq<MarketDataMsg>, m: MarketDataMsg, i: nat, k: Kind, s: Str, last: u64,
                   through: seq<MarketDataMsg>)
    requires LetThroughLast(before, i, k, s, last, through)
    requires !(InStream(m, k, s) && IdOf(m) > last)
    ensures LetThroughLast(before + [m], i, k, s, last, through)
  {
    assert (before + [m])[i] == before[i];
  }

  lemma {:induction false} LastAccepted(msgs: seq<MarketDataMsg>, k: Kind, s: Str) returns (i: nat)
    requires Select(Accepted(msgs, None), k, s) != []
    ensures LetThroughLast(msgs, i, k, s, LastOrZero(NotedAll(Items(msgs, k)), s), Select(Accepted(msgs, None), k, s))
  {
    var n := |msgs| - 1;
    var before, m := msgs[..n], msgs[n];
    var last, through := LastOrZero(NotedAll(Items(before, k)), s), Select(Accepted(before, None), k, s);
    assert msgs == before + [m];
    SelectedNext(before, m, k, s);
    LastNext(before, m, k, s);
    if InStream(m, k, s) && IdOf(m) > last {
      i := n;
      LastIsNew(before, m, k, s, through);
    } else {
      i := LastAccepted(before, k, s);
      LastIsKept(before, m, i, k, s, last, through);
    }
  }

  predicate AllPositive(ids: seq<u64>) {
    forall i | 0 <= i < |ids| :: ids[i] > 0
  }

  predicate NonePositive(ids: seq<u64>) {
    forall i | 0 <= i < |ids| :: ids[i] == 0
  }

  lemma NonePositiveSnoc(ids: seq<u64>, id: u64)
    ensures NonePositive(ids + [id]) <==> NonePositive(ids) && id == 0
    ensures NonePositive(ids) && id > 0 ==> IsRecord(ids + [id], |ids|)
  {
    var all := ids + [id];
    assert all[|ids|] == id && all[..|ids|] == ids;
    assert forall i | 0 <= i < |ids| :: all[i] == ids[i];
  }

  lemma {:induction false} RecordsPositive(ids: seq<u64>)
    ensures AllPositive(Records(ids))
    ensures Records(ids) == [] <==> NonePositive(ids)
  {
    if ids != [] {
      var n := |ids| - 1;
      var before, id := ids[..n], ids[n];
      RecordsPositive(before);
      assert before + [id] == ids;
      NonePositiveSnoc(before, id);
      assert id == 0 ==> !IsRecord(ids, n);
    }
  }

  /** For each kind and symbol the ids let through are the strict maxima of the arrivals. */
  lemma IdsLetThrough(msgs: seq<MarketDataMsg>, k: Kind, s: Str)
    ensures Ids(Select(Accepted(msgs, None), k, s)) == Records(Ids(Select(msgs, k, s)))
  {
    ProjectItems(msgs, k, s);
    ProjectItems(Accepted(msgs, None), k, s);
    AcceptedByKind(msgs, k);
    AcceptedAreRecords(Items(msgs, k), s);
  }

  /** ... none exactly when no message of the kind and symbol has an id above zero, and the last message let
      through is the first-arrived one bearing the highest id. */
  lemma AcceptedForSymbol(msgs: seq<MarketDataMsg>, k: Kind, s: Str)
    ensures Ids(Select(Accepted(msgs, None), k, s)) == Records(Ids(Select(msgs, k, s)))
    ensures var a := Select(Accepted(msgs, None), k, s);
            if a == [] then AllZero(msgs, k, s)
            else exists i: nat :: FirstOfHighest(msgs, i, k, s) && IdOf(msgs[i]) > 0 && msgs[i] == a[|a| - 1]
  {
    IdsLetThrough(msgs, k, s);
    RecordsPositive(Ids(Select(msgs, k, s)));
    var a := Select(Accepted(msgs, None), k, s);
    if a == [] {
      forall j | 0 <= j < |msgs| && InStream(msgs[j], k, s)
        ensures IdOf(msgs[j]) == 0
      {
        Selected(msgs, k, s, msgs[j]);
        var i :| 0 <= i < |Select(msgs, k, s)| && Select(msgs, k, s)[i] == msgs[j];
        assert Ids(Select(msgs, k, s))[i] == 0;
      }
    } else {
      var i := LastAccepted(msgs, k, s);
      assert IdOf(msgs[i]) == Ids(a)[|a| - 1];
    }
  }

  /** No message of this kind and symbol has an id above zero. */
  predicate AllZero(msgs: seq<MarketDataMsg>, k: Kind, s: Str) {
    forall j | 0 <= j < |msgs| && InStream(msgs[j], k, s) :: IdOf(msgs[j]) == 0
  }

  lemma {:induction false} Selected(msgs: seq<MarketDataMsg>, k: Kind, s: Str, m: MarketDataMsg)
    ensures m in Select(msgs, k, s) <==> m in msgs && InStream(m, k, s)
  {
    if msgs != [] {
      var n := |msgs| - 1;
      Selected(msgs[..n], k, s, m);
      assert msgs == msgs[..n] + [msgs[n]];
    }
  }

  lemma {:induction false} AcceptedArrived(msgs: seq<MarketDataMsg>, uuid: Option<TradeKey>, m: MarketDataMsg)
    ensures m in Accepted(msgs, uuid) ==> m in msgs
  {
    if msgs != [] {
      AcceptedArrived(msgs[..|msgs| - 1], uuid, m);
    }
  }

  // ---------------------------------------------------------------------------
  // Redundant connections
  // ---------------------------------------------------------------------------

  /** Redundant connections each deliver, in order, a prefix of one feed of a kind and symbol, each delivery
      with its own reception time and otherwise the same `content`. What is let through is the feed up to
      the furthest connection: in order, without gaps, without duplicates. */
  lemma FeedLetThrough<C>(msgs: seq<MarketDataMsg>, k: Kind, s: Str, feed: seq<MarketDataMsg>, events: seq<nat>,
                          content: MarketDataMsg -> C)
    requires Ascending(Ids(feed)) && Deliverable(Ids(feed), events)
    requires Ids(Select(msgs, k, s)) == Arrivals(Ids(feed), events)
    requires forall m, i | m in msgs && InStream(m, k, s) && 0 <= i < |feed| && IdOf(m) == IdOf(feed[i]) ::
               content(m) == content(feed[i])
    ensures var a := Select(Accepted(msgs, None), k, s);
            && |a| == Furthest(events) <= |feed|
            && forall i | 0 <= i < |a| :: IdOf(a[i]) == IdOf(feed[i]) && content(a[i]) == content(feed[i])
  {
    var a := Select(Accepted(msgs, None), k, s);
    IdsLetThrough(msgs, k, s);
    AcceptedIsPrefix(Ids(feed), events);
    forall i | 0 <= i < |a|
      ensures IdOf(a[i]) == IdOf(feed[i]) && content(a[i]) == content(feed[i])
    {
      assert Ids(a)[i] == Ids(feed)[i];
      Selected(Accepted(msgs, None), k, s, a[i]);
      AcceptedArrived(msgs, None, a[i]);
    }
  }
}
