/** Redundant connections that each deliver the same ids in order: what the filter makes of every
    interleaving of them. */
module RedundantFeeds {
  import opened Bytes
  import opened Symbols
  import opened Streams
  import opened Dedup

  /** The exchange's ids for one symbol: positive and strictly increasing. */
  predicate Ascending(s: seq<u64>) {
    (forall i | 0 <= i < |s| :: s[i] > 0) && forall i, j | 0 <= i < j < |s| :: s[i] < s[j]
  }

  function Count(events: seq<nat>, c: nat): nat {
    multiset(events)[c]
  }

  /** Each event names the connection that delivers next; each connection delivers a prefix of `s`, in order. */
  predicate Deliverable(s: seq<u64>, events: seq<nat>) {
    if events == [] then true
    else
      var n := |events| - 1;
      Deliverable(s, events[..n]) && Count(events[..n], events[n]) < |s|
  }

  function Arrivals(s: seq<u64>, events: seq<nat>): (a: seq<u64>)
    requires Deliverable(s, events)
    ensures |a| == |events|
  {
    if events == [] then []
    else
      var n := |events| - 1;
      Arrivals(s, events[..n]) + [s[Count(events[..n], events[n])]]
  }

  /** How far the connection that is furthest ahead has come. */
  function Furthest(events: seq<nat>): nat {
    if events == [] then 0
    else
      var n := |events| - 1;
      Max(Furthest(events[..n]), Count(events[..n], events[n]) + 1)
  }

  lemma {:induction false} FurthestBounds(events: seq<nat>, c: nat)
    ensures Count(events, c) <= Furthest(events)
  {
    if events != [] {
      var n := |events| - 1;
      FurthestBounds(events[..n], c);
      assert events == events[..n] + [events[n]];
    }
  }

  lemma {:induction false} FurthestReached(events: seq<nat>) returns (c: nat)
    ensures Count(events, c) == Furthest(events)
  {
    if events == [] {
      c := 0;
    } else {
      var n := |events| - 1;
      c := FurthestReached(events[..n]);
      FurthestBounds(events[..n], events[n]);
      assert events == events[..n] + [events[n]];
      if Count(events[..n], events[n]) == Furthest(events[..n]) {
        c := events[n];
      }
    }
  }

  /** The first `f` ids of the feed have been accepted from the arrivals `a`. */
  predicate AcceptedUpTo(s: seq<u64>, a: seq<u64>, f: nat) {
    f <= |s| && Records(a) == s[..f] && Largest(a) == if f == 0 then 0 else s[f - 1]
  }

  /** A delivery of the next id when the furthest connection has delivered `f`, and one of an older id. */
  lemma NextDelivered(s: seq<u64>, a: seq<u64>, f: nat)
    requires Ascending(s) && AcceptedUpTo(s, a, f) && f < |s|
    ensures AcceptedUpTo(s, a + [s[f]], f + 1)
  {
    RecordsSnoc(a, s[f]);
    LargestSnoc(a, s[f]);
    assert s[..f] + [s[f]] == s[..f + 1];
  }

  lemma OlderDelivered(s: seq<u64>, a: seq<u64>, f: nat, i: nat)
    requires Ascending(s) && AcceptedUpTo(s, a, f) && i < f
    ensures AcceptedUpTo(s, a + [s[i]], f)
  {
    RecordsSnoc(a, s[i]);
    LargestSnoc(a, s[i]);
  }

  lemma Delivered(s: seq<u64>, a: seq<u64>, f: nat, i: nat)
    requires Ascending(s) && AcceptedUpTo(s, a, f) && i <= f && i < |s|
    ensures AcceptedUpTo(s, a + [s[i]], Max(f, i + 1))
  {
    if i < f {
      OlderDelivered(s, a, f, i);
    } else {
      NextDelivered(s, a, f);
    }
  }

  lemma {:induction false} DeliveriesExtend(s: seq<u64>, events: seq<nat>)
    requires Ascending(s) && Deliverable(s, events)
    ensures AcceptedUpTo(s, Arrivals(s, events), Furthest(events))
  {
    if events != [] {
      var n := |events| - 1;
      var before := events[..n];
      var i := Count(before, events[n]);
      DeliveriesExtend(s, before);
      FurthestBounds(before, events[n]);
      Delivered(s, Arrivals(s, before), Furthest(before), i);
    }
  }

  /** In every interleaving the accepted ids are exactly the feed up to the furthest connection's
      progress: in order, without gaps, without duplicates. */
  lemma AcceptedIsPrefix(s: seq<u64>, events: seq<nat>)
    requires Ascending(s) && Deliverable(s, events)
    ensures Furthest(events) <= |s| && Records(Arrivals(s, events)) == s[..Furthest(events)]
  {
    DeliveriesExtend(s, events);
  }

  /** The same inside a stream that interleaves any number of symbols. */
  lemma AcceptedIsPrefixAmongSymbols(items: seq<(Str, u64)>, sym: Str, s: seq<u64>, events: seq<nat>)
    requires Ascending(s) && Deliverable(s, events) && Project(items, sym) == Arrivals(s, events)
    ensures Furthest(events) <= |s|
    ensures Project(AcceptedAll(items), sym) == s[..Furthest(events)]
  {
    AcceptedAreRecords(items, sym);
    AcceptedIsPrefix(s, events);
  }

  predicate Increasing(p: seq<nat>) {
    forall i, j | 0 <= i < j < |p| :: p[i] < p[j]
  }

  /** `a` is the subsequence of `s` at the strictly increasing positions `p`. */
  predicate SubsequenceAt(a: seq<u64>, s: seq<u64>, p: seq<nat>) {
    |p| == |a| && Increasing(p) && forall i | 0 <= i < |a| :: p[i] < |s| && a[i] == s[p[i]]
  }

  /** When connections may drop messages, and so any ids of the feed arrive in any order, what is
      accepted is still a strictly increasing subsequence of the feed, ending at the largest arrival. */
  lemma {:induction false} LossyAcceptedIsSubsequence(s: seq<u64>, arrivals: seq<u64>) returns (p: seq<nat>)
    requires Ascending(s) && forall i | 0 <= i < |arrivals| :: arrivals[i] in s
    ensures SubsequenceAt(Records(arrivals), s, p)
    ensures if arrivals == [] then p == [] else p != [] && p[|p| - 1] < |s| && s[p[|p| - 1]] == Largest(arrivals)
  {
    if arrivals == [] {
      p := [];
    } else {
      var n := |arrivals| - 1;
      var before, id := arrivals[..n], arrivals[n];
      assert arrivals == before + [id];
      p := LossyAcceptedIsSubsequence(s, before);
      RecordsSnoc(before, id);
      LargestSnoc(before, id);
      if id > Largest(before) {
        p := ExtendSubsequence(s, Records(before), p, id);
      }
    }
  }

  lemma ExtendSubsequence(s: seq<u64>, a: seq<u64>, p: seq<nat>, id: u64) returns (p': seq<nat>)
    requires Ascending(s) && SubsequenceAt(a, s, p) && id in s
    requires p != [] ==> s[p[|p| - 1]] < id
    ensures SubsequenceAt(a + [id], s, p') && p' != [] && s[p'[|p'| - 1]] == id
  {
    var i: nat :| i < |s| && s[i] == id;
    assert p != [] ==> p[|p| - 1] < i;
    p' := p + [i];
  }
}
