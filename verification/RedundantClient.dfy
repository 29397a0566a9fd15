/** The manager of redundant connections to one endpoint, with each connection reduced to its id. */
module RedundantClient {
  import opened Bytes
  import opened MarketData
  import opened Latency

  // ---------------------------------------------------------------------------
  // Specification
  // ---------------------------------------------------------------------------

  /** Connection ids and the samples each collector has recorded, by position. */
  datatype Client = Client(connections: seq<nat>, samples: seq<seq<u64>>, nextConnId: nat)

  /** No samples count as an average of zero: neither makes a connection the slowest. */
  function AverageOrZero(samples: seq<u64>): real {
    if samples == [] then 0.0 else ReportedAverage(samples)
  }

  /** The leftmost position of the largest average, which is positive. */
  predicate IsSlowest(samples: seq<seq<u64>>, i: nat) {
    && i < |samples| && AverageOrZero(samples[i]) > 0.0
    && forall j | 0 <= j < |samples| ::
         AverageOrZero(samples[j]) <= AverageOrZero(samples[i])
         && (j < i ==> AverageOrZero(samples[j]) < AverageOrZero(samples[i]))
  }

  function SlowestOf(samples: seq<seq<u64>>): (r: Option<nat>)
    ensures r.Some? ==> IsSlowest(samples, r.value)
    ensures r.None? ==> forall i | 0 <= i < |samples| :: AverageOrZero(samples[i]) <= 0.0
  {
    if samples == [] then None
    else
      var n := |samples| - 1;
      var before := SlowestOf(samples[..n]);
      var worst := if before.Some? then AverageOrZero(samples[before.value]) else 0.0;
      if AverageOrZero(samples[n]) > worst then Some(n) else before
  }

  /** The largest average so far, as the loop keeps it. */
  function WorstOf(samples: seq<seq<u64>>): real {
    var i := SlowestOf(samples);
    if i.Some? then AverageOrZero(samples[i.value]) else 0.0
  }

  lemma SlowestNext(samples: seq<seq<u64>>, x: seq<u64>)
    ensures var (i, worst) := (SlowestOf(samples), WorstOf(samples));
            && SlowestOf(samples + [x]) == (if AverageOrZero(x) > worst then Some(|samples|) else i)
            && WorstOf(samples + [x]) == if AverageOrZero(x) > worst then AverageOrZero(x) else worst
  {
    assert (samples + [x])[..|samples|] == samples;
  }

  lemma SlowestUnique(samples: seq<seq<u64>>, i: nat)
    requires IsSlowest(samples, i)
    ensures SlowestOf(samples) == Some(i)
  {
  }

  function NewClient(connCount: nat): Client {
    Client([], seq(connCount, _ => []), 0)
  }

  datatype Event = Start | Record(connIdx: nat, latencyUs: u64) | Evaluate | Stop

  function Evaluated(c: Client): (Client, Option<nat>) {
    if |c.connections| <= 1 then (c, None)
    else
      match SlowestOf(c.samples)
      case Some(i) =>
        if i < |c.connections| then
          (Client(c.connections[i := c.nextConnId], c.samples[i := []], c.nextConnId + 1), Some(i))
        else (c, None)
      case None => (c.(samples := seq(|c.samples|, _ => [])), None)
  }

  /** So many ids, counting up. */
  function From(first: nat, count: nat): (ids: seq<nat>)
    ensures |ids| == count
  {
    seq(count, i requires i >= 0 => first + i)
  }

  function Step(c: Client, e: Event): Client {
    match e
    case Start =>
      Client(c.connections + From(c.nextConnId, |c.samples|), c.samples, c.nextConnId + |c.samples|)
    case Record(i, x) => if i < |c.samples| then c.(samples := c.samples[i := c.samples[i] + [x]]) else c
    case Evaluate => Evaluated(c).0
    case Stop => c.(connections := [])
  }

  function Run(c: Client, events: seq<Event>): Client {
    if events == [] then c else Step(Run(c, events[..|events| - 1]), events[|events| - 1])
  }

  /** Ids are distinct and older than the next one; started clients have a connection per collector. */
  predicate WellManaged(c: Client) {
    && (forall i, j | 0 <= i < j < |c.connections| :: c.connections[i] != c.connections[j])
    && (forall i | 0 <= i < |c.connections| :: c.connections[i] < c.nextConnId)
    && (c.connections == [] || |c.connections| >= |c.samples|)
  }

  lemma StepKeepsManaged(c: Client, e: Event)
    requires WellManaged(c)
    ensures WellManaged(Step(c, e)) && |Step(c, e).samples| == |c.samples| && Step(c, e).nextConnId >= c.nextConnId
  {
  }

  /** Whatever is called in whatever order: ids in use are distinct and below the next one. */
  lemma {:induction false} RunKeepsManaged(connCount: nat, events: seq<Event>)
    ensures WellManaged(Run(NewClient(connCount), events)) && |Run(NewClient(connCount), events).samples| == connCount
  {
    if events != [] {
      RunKeepsManaged(connCount, events[..|events| - 1]);
      StepKeepsManaged(Run(NewClient(connCount), events[..|events| - 1]), events[|events| - 1]);
    }
  }

  /** The connections of `after` that `before` does not have, in order. */
  function NewIds(before: seq<nat>, after: seq<nat>): seq<nat> {
    if after == [] then []
    else
      var n := |after| - 1;
      NewIds(before, after[..n]) + if after[n] in before then [] else [after[n]]
  }

  lemma {:induction false} NewIdsConcat(before: seq<nat>, a: seq<nat>, b: seq<nat>)
    ensures NewIds(before, a + b) == NewIds(before, a) + NewIds(before, b)
  {
    if b == [] {
      assert a + b == a;
    } else {
      var n := |b| - 1;
      assert (a + b)[..|a + b| - 1] == a + b[..n];
      NewIdsConcat(before, a, b[..n]);
    }
  }

  lemma {:induction false} NoneNew(before: seq<nat>, after: seq<nat>)
    requires forall j | 0 <= j < |after| :: after[j] in before
    ensures NewIds(before, after) == []
  {
    if after != [] {
      NoneNew(before, after[..|after| - 1]);
    }
  }

  lemma {:induction false} AllNew(before: seq<nat>, after: seq<nat>)
    requires forall j | 0 <= j < |after| :: after[j] !in before
    ensures NewIds(before, after) == after
  {
    if after != [] {
      AllNew(before, after[..|after| - 1]);
    }
  }

  /** Every id that ever appeared among the connections of a run, as often as it appeared. */
  function GivenOut(c: Client, events: seq<Event>): seq<nat> {
    if events == [] then []
    else
      var n := |events| - 1;
      GivenOut(c, events[..n]) + NewIds(Run(c, events[..n]).connections, Run(c, events).connections)
  }

  lemma FromOn(a: nat, b: nat)
    ensures From(0, a) + From(a, b) == From(0, a + b)
  {
  }

  lemma {:induction false} OneIsNew(before: seq<nat>, after: seq<nat>, i: nat)
    requires i < |after| && after[i] !in before && forall j | 0 <= j < |after| && j != i :: after[j] in before
    ensures NewIds(before, after) == [after[i]]
  {
    var n := |after| - 1;
    if i == n {
      NoneNew(before, after[..n]);
    } else {
      OneIsNew(before, after[..n], i);
    }
  }

  lemma StartGivesOut(ids: seq<nat>, next: nat, count: nat)
    requires forall i | 0 <= i < |ids| :: ids[i] < next
    ensures NewIds(ids, ids + From(next, count)) == From(next, count)
  {
    NewIdsConcat(ids, ids, From(next, count));
    NoneNew(ids, ids);
    AllNew(ids, From(next, count));
  }

  lemma ReplacementGivesOut(ids: seq<nat>, next: nat, i: nat)
    requires i < |ids| && forall j | 0 <= j < |ids| :: ids[j] < next
    ensures NewIds(ids, ids[i := next]) == From(next, 1)
  {
    var after := ids[i := next];
    assert forall j | 0 <= j < |after| && j != i :: after[j] == ids[j];
    OneIsNew(ids, after, i);
  }

  lemma StepGivesOut(c: Client, e: Event)
    requires WellManaged(c)
    ensures var d := Step(c, e);
            c.nextConnId <= d.nextConnId
            && NewIds(c.connections, d.connections) == From(c.nextConnId, d.nextConnId - c.nextConnId)
  {
    match e {
      case Start =>
        StartGivesOut(c.connections, c.nextConnId, |c.samples|);
      case Record(_, _) =>
        NoneNew(c.connections, c.connections);
      case Evaluate =>
        if Evaluated(c).1.Some? {
          ReplacementGivesOut(c.connections, c.nextConnId, Evaluated(c).1.value);
        } else {
          NoneNew(c.connections, c.connections);
        }
      case Stop =>
    }
  }

  lemma GivenOutOn(given: seq<nat>, c: Client, e: Event)
    requires WellManaged(c) && given == From(0, c.nextConnId)
    ensures given + NewIds(c.connections, Step(c, e).connections) == From(0, Step(c, e).nextConnId)
  {
    StepGivesOut(c, e);
    FromOn(c.nextConnId, Step(c, e).nextConnId - c.nextConnId);
  }

  /** No id is given out twice, nor any left out: they are 0, 1, 2, ..., each of them once, also when their
      connections have been stopped or replaced since. */
  lemma {:induction false} IdsGivenOutOnce(connCount: nat, events: seq<Event>)
    ensures GivenOut(NewClient(connCount), events) == From(0, Run(NewClient(connCount), events).nextConnId)
  {
    if events != [] {
      var n := |events| - 1;
      IdsGivenOutOnce(connCount, events[..n]);
      RunKeepsManaged(connCount, events[..n]);
      GivenOutOn(GivenOut(NewClient(connCount), events[..n]), Run(NewClient(connCount), events[..n]), events[n]);
    }
  }

  /** How often a connection was replaced. */
  function Replacements(c: Client, events: seq<Event>): nat {
    if events == [] then 0
    else
      var n := |events| - 1;
      Replacements(c, events[..n]) + if events[n].Evaluate? && Evaluated(Run(c, events[..n])).1.Some? then 1 else 0
  }

  /** After one start the number of connections never changes, and each id ever given out is accounted
      for by the start or by one replacement. */
  lemma {:induction false} RunKeepsCount(connCount: nat, events: seq<Event>)
    requires forall i | 0 <= i < |events| :: events[i].Record? || events[i].Evaluate?
    ensures var first := Step(NewClient(connCount), Start);
            var last := Run(first, events);
            && WellManaged(last) && |last.connections| == |last.samples| == connCount
            && last.nextConnId == connCount + Replacements(first, events)
  {
    var first := Step(NewClient(connCount), Start);
    StepKeepsManaged(NewClient(connCount), Start);
    if events != [] {
      var n := |events| - 1;
      RunKeepsCount(connCount, events[..n]);
      StepKeepsManaged(Run(first, events[..n]), events[n]);
    }
  }

  /** An evaluation of two or more connections replaces exactly the slowest one and clears exactly its
      samples, or, when no average is positive, keeps the connections and clears all samples. */
  lemma EvaluateReplacesSlowest(c: Client)
    requires WellManaged(c) && |c.connections| >= 2
    ensures var (after, idx) := Evaluated(c);
            if idx.Some? then
              && IsSlowest(c.samples, idx.value) && idx.value < |c.connections|
              && after.connections[idx.value] !in c.connections && after.samples[idx.value] == []
              && (forall i | 0 <= i < |c.connections| && i != idx.value :: after.connections[i] == c.connections[i])
              && (forall i | 0 <= i < |c.samples| && i != idx.value :: after.samples[i] == c.samples[i])
            else
              && (forall i | 0 <= i < |c.samples| :: AverageOrZero(c.samples[i]) <= 0.0 && after.samples[i] == [])
              && after.connections == c.connections
  {
  }

  // ---------------------------------------------------------------------------
  // The manager
  // ---------------------------------------------------------------------------

  class RedundantWsClient {
    const connCount: nat
    const latencyCollectors: seq<LatencyCollector>
    var connections: seq<nat>
    var nextConnId: nat

    ghost predicate Separate() {
      && (forall c | c in latencyCollectors :: c as object != this)
      && forall i, j | 0 <= i < j < |latencyCollectors| ::
           latencyCollectors[i] != latencyCollectors[j] && latencyCollectors[i].bins != latencyCollectors[j].bins
    }

    ghost function Bins(): set<array<nat>> {
      set c | c in latencyCollectors :: c.bins
    }

    ghost predicate CollectorsValid()
      reads this, latencyCollectors, Bins()
    {
      && |latencyCollectors| == connCount && Separate()
      && forall c | c in latencyCollectors :: c.bins in Bins() && c.Valid()
    }

    ghost predicate Valid()
      reads this, latencyCollectors, Bins()
    {
      CollectorsValid() && WellManaged(State())
    }

    ghost function State(): Client
      reads this, latencyCollectors
    {
      Client(connections,
             seq(|latencyCollectors|,
                 i requires 0 <= i < |latencyCollectors| reads latencyCollectors => latencyCollectors[i].samples),
             nextConnId)
    }

    constructor (connCount: nat)
      ensures Valid() && this.connCount == connCount && State() == NewClient(connCount)
      ensures forall c | c in latencyCollectors :: fresh(c) && fresh(c.bins)
    {
      var made: seq<LatencyCollector> := [];
      for n := 0 to connCount
        invariant |made| == n && (forall c | c in made :: fresh(c) && fresh(c.bins) && c.Valid() && c.samples == [])
        invariant forall i, j | 0 <= i < j < n :: made[i] != made[j] && made[i].bins != made[j].bins
      {
        var c := new LatencyCollector();
        made := made + [c];
      }
      this.connCount := connCount;
      latencyCollectors := made;
      connections, nextConnId := [], 0;
    }

    method AddAndStartConnection()
      modifies `connections, `nextConnId
      ensures connections == old(connections) + [old(nextConnId)] && nextConnId == old(nextConnId) + 1
    {
      connections := connections + [nextConnId];
      nextConnId := nextConnId + 1;
    }

    method StartAll()
      requires Valid()
      modifies `connections, `nextConnId
      ensures Valid() && State() == Step(old(State()), Start)
      ensures |connections| == |old(connections)| + connCount && nextConnId == old(nextConnId) + connCount
    {
      StepKeepsManaged(State(), Start);
      for i := 0 to connCount
        invariant nextConnId == old(nextConnId) + i
        invariant connections == old(connections) + From(old(nextConnId), i)
      {
        AddAndStartConnection();
      }
      assert State() == Step(old(State()), Start);
    }

    method RecordLatency(connIdx: nat, latencyUs: u64)
      requires Valid()
      requires connIdx < connCount ==> latencyCollectors[connIdx].count < U64_MAX
      modifies latencyCollectors, Bins()
      ensures Valid() && State() == Step(old(State()), Record(connIdx, latencyUs))
      ensures forall i | 0 <= i < connCount ::
                State().samples[i] == old(State()).samples[i] + if i == connIdx then [latencyUs] else []
    {
      if connIdx < |latencyCollectors| {
        latencyCollectors[connIdx].Record(latencyUs);
      }
      assert State() == Step(old(State()), Record(connIdx, latencyUs));
    }

    /** The collectors' statistics, compared one after the other. */
    method FindSlowest() returns (worstIdx: Option<nat>)
      requires CollectorsValid()
      ensures worstIdx == SlowestOf(State().samples)
    {
      worstIdx := None;
      var worstAvg := 0.0;
      ghost var samples := State().samples;
      for i := 0 to |latencyCollectors|
        invariant worstIdx == SlowestOf(samples[..i]) && worstAvg == WorstOf(samples[..i])
      {
        assert samples[..i + 1] == samples[..i] + [samples[i]];
        SlowestNext(samples[..i], samples[i]);
        var stats := latencyCollectors[i].Stats();
        if stats.Some? && stats.value.avgUs > worstAvg {
          worstAvg := stats.value.avgUs;
          worstIdx := Some(i);
        }
      }
      assert samples[..|latencyCollectors|] == samples;
    }

    method EvaluateAndReset() returns (reset: Option<nat>)
      requires Valid()
      modifies this, latencyCollectors, Bins()
      ensures Valid() && (State(), reset) == Evaluated(old(State()))
      ensures |old(connections)| <= 1 ==> reset.None? && State() == old(State())
    {
      StepKeepsManaged(State(), Evaluate);
      reset := EvaluateCollectors();
    }

    method EvaluateCollectors() returns (reset: Option<nat>)
      requires CollectorsValid() && (|connections| > 1 ==> |connections| >= connCount)
      modifies this, latencyCollectors, Bins()
      ensures CollectorsValid() && (State(), reset) == Evaluated(old(State()))
    {
      if |connections| <= 1 {
        return None;
      }
      var worstIdx := FindSlowest();
      if worstIdx.Some? {
        Replace(worstIdx.value);
        return worstIdx;
      }
      ClearAll();
      reset := None;
    }

    /** Stop a connection, clear its samples and put a new connection in its place. */
    method Replace(idx: nat)
      requires CollectorsValid() && idx < connCount && idx < |connections|
      modifies this, latencyCollectors, Bins()
      ensures CollectorsValid()
      ensures State() == Client(old(connections)[idx := old(nextConnId)], old(State()).samples[idx := []],
                                old(nextConnId) + 1)
    {
      latencyCollectors[idx].Reset();
      var newId := nextConnId;
      nextConnId := nextConnId + 1;
      connections := connections[idx := newId];
      assert State().samples == old(State()).samples[idx := []];
    }

    method ClearAll()
      requires CollectorsValid()
      modifies latencyCollectors, Bins()
      ensures CollectorsValid() && State() == old(State()).(samples := seq(connCount, _ => []))
    {
      for i := 0 to |latencyCollectors|
        invariant forall c | c in latencyCollectors :: c.bins in Bins() && c.Valid()
        invariant forall j | 0 <= j < i :: latencyCollectors[j].samples == []
      {
        latencyCollectors[i].Reset();
      }
    }

    method StopAll()
      requires Valid()
      modifies `connections
      ensures Valid() && State() == Step(old(State()), Stop)
      ensures connections == [] && nextConnId == old(nextConnId) && State().samples == old(State()).samples
    {
      connections := [];
      assert State() == Step(old(State()), Stop);
    }
  }
}
