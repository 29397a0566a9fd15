/** Requests and responses over the WebSocket API of the spot client. Callers, the loop that reads and
    writes the socket, and the server take their steps in any order; each step is one atomic action
    (one critical section of the pending map, one channel operation, one poll). */
module WsApi {
  import opened Bytes
  import opened Symbols
  import opened MarketData

  /** An incoming frame: `id` is the string under that key when the frame is a JSON text that has one. */
  datatype Frame = Frame(id: Option<Str>, text: seq<byte>)

  /** The one-shot channel of a request: nothing in it yet, a response, or its sender is gone. */
  datatype Slot = Open | Filled(frame: Frame) | Closed

  datatype Phase = Registered | Waiting | Answered(frame: Frame) | TimedOut | SendFailed | Dropped

  datatype Request = Request(id: Str, phase: Phase, slot: Slot) {
    /** The caller still holds the receiving end. */
    predicate Receiving() {
      phase.Registered? || phase.Waiting?
    }
  }

  const CHANNEL_CAPACITY: nat := 64

  /** `alive`: the reader task runs. `queue`: payloads, by id, in the channel to it. `wire`: payloads it
      has written. `pending`: ids and the requests whose senders they hold. */
  datatype Connection = Connection(alive: bool, queue: seq<Str>, wire: seq<Str>, pending: map<Str, nat>,
                                   requests: seq<Request>)

  const CONNECTED: Connection := Connection(true, [], [], map[], [])

  datatype Action =
    | Register(id: Str)
    | Send(r: nat)
    | FailSend(r: nat)
    | Answer(r: nat)
    | TimeOut(r: nat)
    | Drop(r: nat)
    | Write
    | Handle(frame: Frame)
    | Die

  // ---------------------------------------------------------------------------
  // Steps
  // ---------------------------------------------------------------------------

  predicate InPhase(c: Connection, r: nat, phase: Phase) {
    r < |c.requests| && c.requests[r].phase == phase
  }

  predicate Enabled(c: Connection, a: Action) {
    match a
    case Register(_) => true
    case Send(r) => InPhase(c, r, Registered) && c.alive && |c.queue| < CHANNEL_CAPACITY
    case FailSend(r) => InPhase(c, r, Registered) && !c.alive
    case Answer(r) => InPhase(c, r, Waiting) && c.requests[r].slot.Filled?
    case TimeOut(r) => InPhase(c, r, Waiting) && c.requests[r].slot.Open?
    case Drop(r) => InPhase(c, r, Waiting) && c.requests[r].slot.Closed?
    case Write => c.alive && c.queue != []
    case Handle(_) => c.alive
    case Die => c.alive
  }

  function SetPhase(c: Connection, r: nat, phase: Phase): Connection
    requires r < |c.requests|
  {
    c.(requests := c.requests[r := c.requests[r].(phase := phase)])
  }

  /** Put something in a request's slot. A sender whose receiver is gone has no effect. */
  function SetSlot(requests: seq<Request>, r: nat, slot: Slot): seq<Request> {
    if r < |requests| && requests[r].Receiving() then requests[r := requests[r].(slot := slot)] else requests
  }

  function Next(c: Connection, a: Action): Connection
    requires Enabled(c, a)
  {
    match a
    case Register(id) =>
      // Inserting under an id already pending drops the sender that was there.
      var requests := if id in c.pending then SetSlot(c.requests, c.pending[id], Closed) else c.requests;
      c.(pending := c.pending[id := |c.requests|], requests := requests + [Request(id, Registered, Open)])
    case Send(r) => SetPhase(c.(queue := c.queue + [c.requests[r].id]), r, Waiting)
    case FailSend(r) => SetPhase(c, r, SendFailed)
    case Answer(r) => SetPhase(c, r, Answered(c.requests[r].slot.frame))
    case TimeOut(r) => SetPhase(c, r, TimedOut)
    case Drop(r) => SetPhase(c, r, Dropped)
    case Write => c.(queue := c.queue[1..], wire := c.wire + [c.queue[0]])
    case Handle(f) =>
      if f.id.Some? && f.id.value in c.pending then
        c.(pending := c.pending - {f.id.value}, requests := SetSlot(c.requests, c.pending[f.id.value], Filled(f)))
      else c
    case Die => c.(alive := false, queue := [])
  }

  // ---------------------------------------------------------------------------
  // Runs in which every request has a fresh id
  // ---------------------------------------------------------------------------

  predicate Known(c: Connection, id: Str) {
    exists r | 0 <= r < |c.requests| :: c.requests[r].id == id
  }

  predicate Legal(c: Connection, a: Action) {
    Enabled(c, a) && (a.Register? ==> !Known(c, a.id))
  }

  predicate Run(actions: seq<Action>) {
    actions == [] || (Run(actions[..|actions| - 1]) && Legal(After(actions[..|actions| - 1]), actions[|actions| - 1]))
  }

  function After(actions: seq<Action>): Connection {
    if actions == [] then CONNECTED
    else
      var c, a := After(actions[..|actions| - 1]), actions[|actions| - 1];
      if Enabled(c, a) then Next(c, a) else c
  }

  /** How a request and the pending map agree. */
  predicate Consistent(q: Request, pending: bool) {
    match q.slot
    case Open => (q.Receiving() ==> pending) && !q.phase.Answered? && !q.phase.Dropped?
    case Filled(f) => !pending && f.id == Some(q.id) && (q.Receiving() || q.phase.SendFailed? || q.phase == Answered(f))
    case Closed => false
  }

  predicate ConsistentAt(pending: map<Str, nat>, requests: seq<Request>, r: nat)
    requires r < |requests|
  {
    Consistent(requests[r], requests[r].id in pending)
  }

  predicate Agree(pending: map<Str, nat>, requests: seq<Request>) {
    && (forall i, j | 0 <= i < j < |requests| :: requests[i].id != requests[j].id)
    && (forall id | id in pending :: pending[id] < |requests| && requests[pending[id]].id == id)
    && (forall r: nat {:trigger ConsistentAt(pending, requests, r)} | r < |requests| ::
          ConsistentAt(pending, requests, r))
  }

  predicate Inv(c: Connection) {
    Agree(c.pending, c.requests)
  }

  lemma PhaseKeepsInv(pending: map<Str, nat>, requests: seq<Request>, r: nat, phase: Phase)
    requires Agree(pending, requests) && r < |requests|
    requires Consistent(requests[r].(phase := phase), requests[r].id in pending)
    ensures Agree(pending, requests[r := requests[r].(phase := phase)])
  {
    var after := requests[r := requests[r].(phase := phase)];
    forall k: nat | k < |after|
      ensures ConsistentAt(pending, after, k)
    {
      assert ConsistentAt(pending, requests, k);
    }
  }

  lemma RegisterKeepsInv(c: Connection, id: Str)
    requires Inv(c) && !Known(c, id)
    ensures Inv(Next(c, Register(id)))
  {
    var d := Next(c, Register(id));
    assert id !in c.pending;
    forall k: nat | k < |d.requests|
      ensures ConsistentAt(d.pending, d.requests, k)
    {
      if k < |c.requests| { assert ConsistentAt(c.pending, c.requests, k); }
    }
  }

  lemma HandleKeepsInv(c: Connection, f: Frame)
    requires Inv(c) && c.alive
    ensures Inv(Next(c, Handle(f)))
  {
    var d := Next(c, Handle(f));
    forall k: nat | k < |d.requests|
      ensures ConsistentAt(d.pending, d.requests, k)
    {
      assert ConsistentAt(c.pending, c.requests, k);
    }
  }

  /** The request a caller's step is about. */
  function RequestOf(a: Action): Option<nat> {
    match a
    case Send(r) => Some(r)
    case FailSend(r) => Some(r)
    case Answer(r) => Some(r)
    case TimeOut(r) => Some(r)
    case Drop(r) => Some(r)
    case _ => None
  }

  /** A caller's step changes the phase of its request and nothing else about requests. */
  lemma CallerKeepsInv(c: Connection, a: Action)
    requires Inv(c) && Enabled(c, a) && RequestOf(a).Some?
    ensures Inv(Next(c, a)) && !a.Drop?
  {
    var r := RequestOf(a).value;
    assert ConsistentAt(c.pending, c.requests, r);
    PhaseKeepsInv(c.pending, c.requests, r, Next(c, a).requests[r].phase);
  }

  lemma StepKeepsInv(c: Connection, a: Action)
    requires Inv(c) && Legal(c, a)
    ensures Inv(Next(c, a))
  {
    if RequestOf(a).Some? {
      CallerKeepsInv(c, a);
    } else if a.Register? {
      RegisterKeepsInv(c, a.id);
    } else if a.Handle? {
      HandleKeepsInv(c, a.frame);
    }
  }

  lemma {:induction false} RunKeepsInv(actions: seq<Action>)
    requires Run(actions)
    ensures Inv(After(actions))
  {
    if actions != [] {
      RunKeepsInv(actions[..|actions| - 1]);
      StepKeepsInv(After(actions[..|actions| - 1]), actions[|actions| - 1]);
    }
  }

  // ---------------------------------------------------------------------------
  // What can happen to a request
  // ---------------------------------------------------------------------------

  /** A request that has ended stays as it is; a response in its slot stays there; a sent request can
      no longer fail to be sent. */
  predicate Later(p: Request, q: Request) {
    && q.id == p.id && (!p.Receiving() ==> q == p) && (p.slot.Filled? ==> q.slot == p.slot)
    && (p.phase.Waiting? ==> !q.phase.Registered? && !q.phase.SendFailed?)
  }

  lemma StepMoves(c: Connection, a: Action, r: nat)
    requires Inv(c) && Legal(c, a) && r < |c.requests|
    ensures r < |Next(c, a).requests| && Later(c.requests[r], Next(c, a).requests[r])
  {
    assert ConsistentAt(c.pending, c.requests, r);
  }

  lemma {:induction false} RunMoves(actions: seq<Action>, k: nat, r: nat)
    requires Run(actions) && k <= |actions| && r < |After(actions[..k]).requests|
    ensures r < |After(actions).requests| && Later(After(actions[..k]).requests[r], After(actions).requests[r])
    decreases |actions|
  {
    if k == |actions| {
      assert actions[..k] == actions;
    } else {
      var before := actions[..|actions| - 1];
      assert before[..k] == actions[..k];
      RunMoves(before, k, r);
      RunKeepsInv(before);
      StepMoves(After(before), actions[|actions| - 1], r);
    }
  }

  lemma {:induction false} RunPrefix(actions: seq<Action>, k: nat)
    requires Run(actions) && k <= |actions|
    ensures Run(actions[..k])
  {
    if k < |actions| {
      RunPrefix(actions[..|actions| - 1], k);
      assert actions[..|actions| - 1][..k] == actions[..k];
    } else {
      assert actions[..k] == actions;
    }
  }

  // ---------------------------------------------------------------------------
  // What a run's steps leave behind
  // ---------------------------------------------------------------------------

  lemma {:induction false} StepsAreOnRequests(actions: seq<Action>, a: Action)
    requires Run(actions) && a in actions && RequestOf(a).Some?
    ensures RequestOf(a).value < |After(actions).requests|
  {
    var n := |actions| - 1;
    if a in actions[..n] {
      StepsAreOnRequests(actions[..n], a);
    } else {
      assert a == actions[n];
    }
  }

  lemma InLonger(actions: seq<Action>, last: Action, a: Action)
    ensures a in actions + [last] <==> a in actions || a == last
  {
  }

  /** Every outcome has its step: a phase tells which steps the caller of the request has taken. */
  predicate PhaseTells(phase: Phase, r: nat, actions: seq<Action>) {
    && (Send(r) in actions <==> !phase.Registered? && !phase.SendFailed?)
    && (FailSend(r) in actions <==> phase.SendFailed?)
    && (Answer(r) in actions <==> phase.Answered?)
    && (TimeOut(r) in actions <==> phase.TimedOut?)
    && (Drop(r) in actions <==> phase.Dropped?)
  }

  lemma PhaseTellsNext(phase: Phase, after: Phase, r: nat, actions: seq<Action>, a: Action)
    requires PhaseTells(phase, r, actions)
    requires match a
             case Send(q) => if q == r then phase.Registered? && after.Waiting? else after == phase
             case FailSend(q) => if q == r then phase.Registered? && after.SendFailed? else after == phase
             case Answer(q) => if q == r then phase.Waiting? && after.Answered? else after == phase
             case TimeOut(q) => if q == r then phase.Waiting? && after.TimedOut? else after == phase
             case Drop(q) => if q == r then phase.Waiting? && after.Dropped? else after == phase
             case _ => after == phase
    ensures PhaseTells(after, r, actions + [a])
  {
    InLonger(actions, a, Send(r));
    InLonger(actions, a, FailSend(r));
    InLonger(actions, a, Answer(r));
    InLonger(actions, a, TimeOut(r));
    InLonger(actions, a, Drop(r));
  }

  /** A request has been sent, refused, answered, timed out or dropped exactly if a step of its caller did so. */
  lemma {:induction false} OutcomeIsItsStep(actions: seq<Action>, r: nat)
    requires Run(actions) && r < |After(actions).requests|
    ensures PhaseTells(After(actions).requests[r].phase, r, actions)
  {
    var n := |actions| - 1;
    var before, a := actions[..n], actions[n];
    var c := After(before);
    assert actions == before + [a];
    if r < |c.requests| {
      OutcomeIsItsStep(before, r);
      PhaseTellsNext(c.requests[r].phase, After(actions).requests[r].phase, r, before, a);
    } else {
      NoStepYet(before, r, Send(r));
      NoStepYet(before, r, FailSend(r));
      NoStepYet(before, r, Answer(r));
      NoStepYet(before, r, TimeOut(r));
      NoStepYet(before, r, Drop(r));
    }
  }

  lemma NoStepYet(actions: seq<Action>, r: nat, a: Action)
    requires Run(actions) && r >= |After(actions).requests| && RequestOf(a) == Some(r)
    ensures a !in actions
  {
    if a in actions {
      StepsAreOnRequests(actions, a);
    }
  }

  function RegisteredIds(actions: seq<Action>): seq<Str> {
    if actions == [] then []
    else
      var before, a := actions[..|actions| - 1], actions[|actions| - 1];
      RegisteredIds(before) + if a.Register? then [a.id] else []
  }

  function Writes(actions: seq<Action>): nat {
    if actions == [] then 0
    else Writes(actions[..|actions| - 1]) + if actions[|actions| - 1].Write? then 1 else 0
  }

  predicate SameIds(requests: seq<Request>, ids: seq<Str>) {
    |requests| == |ids| && forall r | 0 <= r < |ids| :: requests[r].id == ids[r]
  }

  lemma SameIdsNext(c: Connection, a: Action, ids: seq<Str>)
    requires Enabled(c, a) && SameIds(c.requests, ids)
    ensures SameIds(Next(c, a).requests, ids + if a.Register? then [a.id] else [])
  {
  }

  /** There is a request for each registration, under its id; a payload on the wire for each write; and the
      reader lives until it dies, leaving nothing in the channel. */
  lemma {:induction false} RunLeaves(actions: seq<Action>)
    requires Run(actions)
    ensures SameIds(After(actions).requests, RegisteredIds(actions))
    ensures |After(actions).wire| == Writes(actions)
    ensures After(actions).alive <==> Die !in actions
    ensures !After(actions).alive ==> After(actions).queue == []
  {
    if actions != [] {
      var before, a := actions[..|actions| - 1], actions[|actions| - 1];
      RunLeaves(before);
      SameIdsNext(After(before), a, RegisteredIds(before));
      assert actions == before + [a];
      InLonger(before, a, Die);
    }
  }

  // ---------------------------------------------------------------------------
  // Responses
  // ---------------------------------------------------------------------------

  /** A response in a request's slot was put there by one frame that the live reader handled after the
      request was registered, and that bears its id. */
  lemma {:induction false} SlotFilledBy(actions: seq<Action>, r: nat) returns (k: nat)
    requires Run(actions) && r < |After(actions).requests| && After(actions).requests[r].slot.Filled?
    ensures k < |actions| && actions[k].Handle? && After(actions[..k]).alive
    ensures var q, c := After(actions).requests[r], After(actions[..k]);
            && q.slot == Filled(actions[k].frame) && actions[k].frame.id == Some(q.id)
            && r < |c.requests| && c.requests[r].Receiving() && q.id in c.pending
  {
    var n := |actions| - 1;
    var before, a := actions[..n], actions[n];
    var c := After(before);
    RunKeepsInv(before);
    if r < |c.requests| {
      assert ConsistentAt(c.pending, c.requests, r);
      if c.requests[r].slot.Filled? {
        StepMoves(c, a, r);
        k := SlotFilledBy(before, r);
        assert before[..k] == actions[..k];
      } else {
        k := n;
      }
    }
  }

  /** Each request is answered at most once (its outcome never changes), only by a frame bearing its own
      id, and no frame answers two requests; no request is ever dropped. */
  lemma AnswersAreOwn(actions: seq<Action>, r: nat)
    requires Run(actions) && r < |After(actions).requests|
    ensures var q := After(actions).requests[r];
            && !q.phase.Dropped?
            && (q.phase.Answered? ==>
                  && q.phase.frame.id == Some(q.id)
                  && (exists k :: 0 <= k < |actions| && actions[k] == Handle(q.phase.frame)
                                  && r < |After(actions[..k]).requests| && After(actions[..k]).requests[r].Receiving())
                  && forall t | 0 <= t < |After(actions).requests| && t != r ::
                       After(actions).requests[t].phase != q.phase)
  {
    var c := After(actions);
    RunKeepsInv(actions);
    assert ConsistentAt(c.pending, c.requests, r);
    if c.requests[r].phase.Answered? {
      var k := SlotFilledBy(actions, r);
      assert actions[k] == Handle(c.requests[r].phase.frame);
      forall t | 0 <= t < |c.requests| && t != r
        ensures c.requests[t].phase != c.requests[r].phase
      {
        assert ConsistentAt(c.pending, c.requests, t);
      }
    }
  }

  lemma HandleFills(c: Connection, f: Frame, r: nat)
    requires Inv(c) && c.alive && r < |c.requests| && c.requests[r].Receiving() && c.requests[r].slot.Open?
    requires f.id == Some(c.requests[r].id)
    ensures Next(c, Handle(f)).requests[r] == c.requests[r].(slot := Filled(f))
            && |Next(c, Handle(f)).requests| == |c.requests|
  {
    assert ConsistentAt(c.pending, c.requests, r);
  }

  /** The first matching frame that the live reader handles before the request has ended reaches it,
      whatever happens next: the request never times out, and if it had been sent, it can only end
      with this frame as its answer. */
  lemma FrameReachesRequest(actions: seq<Action>, k: nat, r: nat)
    requires Run(actions) && k < |actions| && actions[k].Handle?
    requires r < |After(actions[..k]).requests|
    requires var q := After(actions[..k]).requests[r];
             q.Receiving() && q.slot.Open? && actions[k].frame.id == Some(q.id)
    ensures r < |After(actions).requests|
    ensures var was, q, f := After(actions[..k]).requests[r], After(actions).requests[r], actions[k].frame;
            && q.slot == Filled(f)
            && (q.Receiving() || q.phase == Answered(f) || (q.phase.SendFailed? && was.phase.Registered?))
  {
    FilledAtStep(actions, k, r);
    RunMoves(actions, k + 1, r);
    RunMoves(actions, k, r);
    RunKeepsInv(actions);
    assert ConsistentAt(After(actions).pending, After(actions).requests, r);
    FilledStays(After(actions[..k]).requests[r], After(actions).requests[r], actions[k].frame,
                After(actions).requests[r].id in After(actions).pending);
  }

  lemma FilledAtStep(actions: seq<Action>, k: nat, r: nat)
    requires Run(actions) && k < |actions| && actions[k].Handle?
    requires r < |After(actions[..k]).requests|
    requires var q := After(actions[..k]).requests[r];
             q.Receiving() && q.slot.Open? && actions[k].frame.id == Some(q.id)
    ensures r < |After(actions[..k + 1]).requests|
    ensures After(actions[..k + 1]).requests[r] == After(actions[..k]).requests[r].(slot := Filled(actions[k].frame))
  {
    RunPrefix(actions, k);
    RunKeepsInv(actions[..k]);
    StepOfRun(actions, k);
    HandleFills(After(actions[..k]), actions[k].frame, r);
  }

  lemma StepOfRun(actions: seq<Action>, k: nat)
    requires Run(actions) && k < |actions|
    ensures Enabled(After(actions[..k]), actions[k])
    ensures After(actions[..k + 1]) == Next(After(actions[..k]), actions[k])
  {
    RunPrefix(actions, k + 1);
    assert actions[..k + 1][..k] == actions[..k];
  }

  /** A request whose slot was filled while it was open can end in no other way than by this response, or by
      a failure to send it. */
  lemma FilledStays(was: Request, q: Request, f: Frame, pending: bool)
    requires Later(was, q) && Later(was.(slot := Filled(f)), q) && was.Receiving() && Consistent(q, pending)
    ensures q.slot == Filled(f)
    ensures q.Receiving() || q.phase == Answered(f) || (q.phase.SendFailed? && was.phase.Registered?)
  {
  }

  // ---------------------------------------------------------------------------
  // The pending map
  // ---------------------------------------------------------------------------

  /** How many frames removed an id from the pending map. */
  function Removals(actions: seq<Action>, id: Str): nat {
    if actions == [] then 0
    else
      var before, a := actions[..|actions| - 1], actions[|actions| - 1];
      Removals(before, id) +
      if a.Handle? && a.frame.id == Some(id) && After(before).alive && id in After(before).pending then 1 else 0
  }

  /** Every registered id is still pending or was removed by exactly one frame. Time-outs and failed sends
      remove nothing. */
  lemma {:induction false} RegisteredIsPendingOrRemoved(actions: seq<Action>, id: Str)
    requires Run(actions)
    ensures Removals(actions, id) == if Known(After(actions), id) && id !in After(actions).pending then 1 else 0
    ensures id in After(actions).pending ==> Known(After(actions), id)
  {
    if actions != [] {
      var n := |actions| - 1;
      var before, a := actions[..n], actions[n];
      RegisteredIsPendingOrRemoved(before, id);
      RunKeepsInv(before);
      KnownNext(After(before), a, id);
    }
  }

  lemma KnownNext(c: Connection, a: Action, id: Str)
    requires Inv(c) && Legal(c, a)
    ensures Known(Next(c, a), id) <==> Known(c, id) || a == Register(id)
  {
    var d := Next(c, a);
    if Known(c, id) {
      var r :| 0 <= r < |c.requests| && c.requests[r].id == id;
      StepMoves(c, a, r);
      assert d.requests[r].id == id;
    }
    if a.Register? {
      assert d.requests[|c.requests|].id == a.id;
    }
    if Known(d, id) && a != Register(id) {
      var r :| 0 <= r < |d.requests| && d.requests[r].id == id;
      assert r < |c.requests|;
      StepMoves(c, a, r);
    }
  }

  /** A request can time out only when no frame bearing its id was handled since it was registered. */
  lemma TimeOutMeansNoFrame(actions: seq<Action>, r: nat, k: nat)
    requires Run(actions) && Enabled(After(actions), TimeOut(r))
    requires k < |actions| && actions[k].Handle? && r < |After(actions[..k]).requests|
    ensures actions[k].frame.id != Some(After(actions).requests[r].id)
  {
    RunMoves(actions, k, r);
    RunPrefix(actions, k);
    RunKeepsInv(actions[..k]);
    var c := After(actions[..k]);
    assert ConsistentAt(c.pending, c.requests, r);
    if actions[k].frame.id == Some(c.requests[r].id) && c.requests[r].slot.Open? {
      FrameReachesRequest(actions, k, r);
    }
  }

  // ---------------------------------------------------------------------------
  // When the reader has died
  // ---------------------------------------------------------------------------

  lemma DeadStep(c: Connection, a: Action)
    requires Inv(c) && Legal(c, a) && !c.alive
    ensures !Next(c, a).alive && Next(c, a).wire == c.wire
    ensures forall id | id in c.pending :: id in Next(c, a).pending && Next(c, a).pending[id] == c.pending[id]
    ensures forall r | 0 <= r < |c.requests| && c.requests[r].slot.Open? :: Next(c, a).requests[r].slot.Open?
  {
  }

  /** After the reader's end nothing leaves the pending map, nothing more is written, no request still
      open is ever answered, and a request not yet sent can only fail to be sent. */
  lemma {:induction false} NobodyAnsweredAfterDeath(actions: seq<Action>, k: nat)
    requires Run(actions) && k <= |actions| && !After(actions[..k]).alive
    ensures var c, d := After(actions[..k]), After(actions);
            && !d.alive && d.wire == c.wire && (forall id | id in c.pending :: id in d.pending)
            && |c.requests| <= |d.requests|
            && (forall r | 0 <= r < |c.requests| && c.requests[r].slot.Open? :: d.requests[r].slot.Open?)
            && forall r | 0 <= r < |d.requests| && (r >= |c.requests| || c.requests[r].phase.Registered?) ::
                 d.requests[r].phase.Registered? || d.requests[r].phase.SendFailed?
    decreases |actions|
  {
    if k == |actions| {
      assert actions[..k] == actions;
    } else {
      var before := actions[..|actions| - 1];
      assert before[..k] == actions[..k];
      NobodyAnsweredAfterDeath(before, k);
      RunKeepsInv(before);
      DeadStep(After(before), actions[|actions| - 1]);
    }
  }

  // ---------------------------------------------------------------------------
  // The outgoing channel
  // ---------------------------------------------------------------------------

  /** Ids of the requests sent, in order. */
  function Sent(actions: seq<Action>): seq<Str> {
    if actions == [] then []
    else
      var before, a := actions[..|actions| - 1], actions[|actions| - 1];
      if a.Send? && InPhase(After(before), a.r, Registered) then Sent(before) + [After(before).requests[a.r].id]
      else Sent(before)
  }

  /** The wire is a prefix of what was sent, and while the reader lives the channel holds the rest. */
  predicate InOrder(c: Connection, sent: seq<Str>) {
    c.wire <= sent && |c.queue| <= 64 && (c.alive ==> c.wire + c.queue == sent)
  }

  lemma StepInOrder(c: Connection, a: Action, sent: seq<Str>)
    requires Enabled(c, a) && InOrder(c, sent)
    ensures InOrder(Next(c, a), if a.Send? then sent + [c.requests[a.r].id] else sent)
  {
    if a.Send? {
      assert c.wire + (c.queue + [c.requests[a.r].id]) == sent + [c.requests[a.r].id];
    } else if a.Write? {
      assert (c.wire + [c.queue[0]]) + c.queue[1..] == c.wire + c.queue;
    }
  }

  lemma {:induction false} SentIsKnown(actions: seq<Action>, id: Str)
    requires Run(actions) && id in Sent(actions)
    ensures Known(After(actions), id)
  {
    var before, a := actions[..|actions| - 1], actions[|actions| - 1];
    RunKeepsInv(before);
    KnownNext(After(before), a, id);
    if id in Sent(before) {
      SentIsKnown(before, id);
    }
  }

  lemma {:induction false} RunInOrder(actions: seq<Action>)
    requires Run(actions)
    ensures InOrder(After(actions), Sent(actions))
  {
    if actions != [] {
      var before, a := actions[..|actions| - 1], actions[|actions| - 1];
      RunInOrder(before);
      StepInOrder(After(before), a, Sent(before));
    }
  }

  /** What the server has seen is a prefix of what was sent, in order; while the reader lives the rest is
      in the channel; and every id on the wire was registered before. */
  lemma WireIsPrefixOfSent(actions: seq<Action>)
    requires Run(actions)
    ensures InOrder(After(actions), Sent(actions))
    ensures forall id | id in Sent(actions) :: Known(After(actions), id)
  {
    RunInOrder(actions);
    forall id | id in Sent(actions)
      ensures Known(After(actions), id)
    {
      SentIsKnown(actions, id);
    }
  }

  /** A server that answers an id it has seen, and has not answered before, finds it pending: the caller
      registers before it sends. */
  lemma SeenIsPending(actions: seq<Action>, id: Str)
    requires Run(actions) && id in After(actions).wire && Removals(actions, id) == 0
    ensures id in After(actions).pending
  {
    WireIsPrefixOfSent(actions);
    RegisteredIsPendingOrRemoved(actions, id);
  }

  /** Why ids must be fresh: two requests under one id, and the first is dropped. */
  lemma ReusedIdDropsFirst(id: Str) returns (c: Connection)
    ensures Enabled(CONNECTED, Register(id))
    ensures var c1 := Next(CONNECTED, Register(id));
            && Enabled(c1, Register(id)) && Enabled(Next(c1, Register(id)), Send(0))
            && c == Next(Next(c1, Register(id)), Send(0))
            && Enabled(c, Drop(0)) && !Enabled(c, TimeOut(0)) && !Enabled(c, Answer(0))
  {
    c := Next(Next(Next(CONNECTED, Register(id)), Register(id)), Send(0));
  }

  // ---------------------------------------------------------------------------
  // The shared object
  // ---------------------------------------------------------------------------

  /** The state that callers and the reader task share; each method is one atomic action. */
  class WsApiInner {
    var alive: bool
    var queue: seq<Str>
    var wire: seq<Str>
    var pending: map<Str, nat>
    var requests: seq<Request>

    function View(): Connection
      reads this
    {
      Connection(alive, queue, wire, pending, requests)
    }

    constructor ()
      ensures View() == CONNECTED
    {
      alive, queue, wire, pending, requests := true, [], [], map[], [];
    }

    /** `map.insert(id, tx)` */
    method Insert(id: Str) returns (r: nat)
      modifies this
      ensures View() == Next(old(View()), Register(id)) && r == |old(requests)|
    {
      r := |requests|;
      if id in pending {
        requests := SetSlot(requests, pending[id], Closed);
      }
      pending := pending[id := r];
      requests := requests + [Request(id, Registered, Open)];
    }

    /** `tx.send(payload)`, when the channel has room or is closed. */
    method SendPayload(r: nat) returns (ok: bool)
      requires InPhase(View(), r, Registered) && (alive ==> |queue| < 64)
      modifies this
      ensures ok == old(alive) && View() == Next(old(View()), if ok then Send(r) else FailSend(r))
    {
      ok := alive;
      if alive {
        queue := queue + [requests[r].id];
        requests := requests[r := requests[r].(phase := Waiting)];
      } else {
        requests := requests[r := requests[r].(phase := SendFailed)];
      }
    }

    /** One poll of `timeout(5s, rx)`: a response is taken even when the time is up. */
    method Poll(r: nat, expired: bool) returns (response: Option<Frame>)
      requires InPhase(View(), r, Waiting)
      modifies this
      ensures var slot := old(requests)[r].slot;
              && response == (if slot.Filled? then Some(slot.frame) else None)
              && View() == if slot.Filled? then Next(old(View()), Answer(r))
                           else if slot.Closed? then Next(old(View()), Drop(r))
                           else if expired then Next(old(View()), TimeOut(r))
                           else old(View())
    {
      response := None;
      match requests[r].slot {
        case Filled(frame) =>
          requests := requests[r := requests[r].(phase := Answered(frame))];
          response := Some(frame);
        case Closed =>
          requests := requests[r := requests[r].(phase := Dropped)];
        case Open =>
          if expired {
            requests := requests[r := requests[r].(phase := TimedOut)];
          }
      }
    }

    /** The reader's branch for an outgoing payload. */
    method WriteNext()
      requires alive && queue != []
      modifies this
      ensures View() == Next(old(View()), Write)
    {
      wire, queue := wire + [queue[0]], queue[1..];
    }

    /** The reader's branch for an incoming frame. */
    method HandleFrame(frame: Frame)
      requires alive
      modifies this
      ensures View() == Next(old(View()), Handle(frame))
    {
      if frame.id.Some? && frame.id.value in pending {
        var r := pending[frame.id.value];
        pending := pending - {frame.id.value};
        requests := SetSlot(requests, r, Filled(frame));
      }
    }

    /** The reader's loop ends on a read or write error or at the end of the stream. */
    method End()
      requires alive
      modifies this
      ensures View() == Next(old(View()), Die)
    {
      alive, queue := false, [];
    }
  }

  class SpotClient {
    var wsApi: WsApiInner?
    /** How many connections have been made. */
    ghost var made: nat

    ghost predicate Valid()
      reads this
    {
      made == if wsApi == null then 0 else 1
    }

    constructor ()
      ensures Valid() && wsApi == null
    {
      wsApi, made := null, 0;
    }

    /** At most one connection is ever made; it is given to every later caller, also when its reader has
        died. `reachable`: whether a connection attempt succeeds now. */
    method EnsureWsApi(reachable: bool) returns (ws: WsApiInner?)
      requires Valid()
      modifies this
      ensures Valid() && ws == wsApi && (ws == null <==> old(wsApi) == null && !reachable)
      ensures old(wsApi) != null ==> ws == old(wsApi)
      ensures old(wsApi) == null && reachable ==> fresh(ws) && ws.View() == CONNECTED
    {
      if wsApi != null {
        return wsApi;
      }
      if !reachable {
        return null;
      }
      ws := new WsApiInner();
      wsApi, made := ws, made + 1;
    }
  }
}
