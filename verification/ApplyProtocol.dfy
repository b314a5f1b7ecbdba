// The sync thread, the apply thread and the producers, interleaved step by
// step. Each step is one critical section or one atomic store of the source.

module ApplyProtocol {
  import opened Prelude

  datatype ApplyCyclePlan = ApplyCyclePlan(exit: bool, hold: bool, takeBatch: bool, tick: bool)

  function PlanApplyCycle(stop: bool, ready: bool, queueEmpty: bool): ApplyCyclePlan {
    if stop && queueEmpty then ApplyCyclePlan(true, false, false, false)
    else if !ready then ApplyCyclePlan(false, true, false, false)
    else ApplyCyclePlan(false, false, !queueEmpty, !stop)
  }

  const BATCH_LIMIT: nat := 256
  const QUEUE_LIMIT: nat := 100_000

  /** A queued message. */
  type Msg = nat

  datatype ApplyAt = Top | Waiting | Applying(batch: seq<Msg>) | Ticking | Exited

  /** Draining is waitApplyIdle; Loading runs from its return to the end of the
      snapshot; Arming lies between the two stores that end it. */
  datatype SyncAt = Connecting | Draining | Loading | Arming | Following | Stopped

  datatype State = State(
    stop: bool, ready: bool, needResync: bool, idle: bool,
    queue: seq<Msg>, apply: ApplyAt, sync: SyncAt,
    taken: seq<Msg>, applied: seq<Msg>, lost: seq<Msg>)

  datatype Step =
    // apply thread; `asks` says that the handler asks for a resync, as a close
    // does that skips a ledger or names another parent
    | EnterWait | Wake | ApplyOne(asks: bool) | BatchThrows(asks: bool) | FinishBatch | EndTick
    // sync thread
    | Connect | ApplyIdle | Loaded | Arm | Fail | NoticeResync | NoticeDown
    // producers and callers
    | Enqueue(m: Msg) | Disconnect | Stop

  predicate Enabled(s: State, step: Step) {
    match step
    case EnterWait => s.apply.Top?
    case Wake => s.apply.Waiting?
    case ApplyOne(_) => s.apply.Applying? && s.apply.batch != []
    case BatchThrows(_) => s.apply.Applying? && s.apply.batch != []
    case FinishBatch => s.apply.Applying? && s.apply.batch == []
    case EndTick => s.apply.Ticking?
    case Connect => s.sync.Connecting?
    case ApplyIdle => s.sync.Draining? && (s.stop || s.idle)
    case Loaded => s.sync.Loading?
    case Arm => s.sync.Arming?
    case Fail => s.sync.Draining? || s.sync.Loading? || s.sync.Following?
    case NoticeResync => s.sync.Following? && (s.stop || s.needResync)
    case NoticeDown => s.sync.Following?
    case _ => true
  }

  function Take(queue: seq<Msg>): seq<Msg> {
    queue[..Min(|queue|, BATCH_LIMIT)]
  }

  function WakeUp(s: State): State {
    var plan := PlanApplyCycle(s.stop, s.ready, s.queue == []);
    if plan.exit then s.(apply := Exited)
    else if plan.hold then s.(apply := Top)
    else if plan.takeBatch then
      s.(idle := false, apply := Applying(Take(s.queue)), queue := s.queue[|Take(s.queue)|..])
    else s.(apply := Ticking)
  }

  function Next(s: State, step: Step): State
    requires Enabled(s, step)
  {
    match step
    case EnterWait => s.(idle := true, apply := Waiting)
    case Wake => WakeUp(s)
    case ApplyOne(asks) =>
      // The handlers return at once while not ready.
      s.(apply := Applying(s.apply.batch[1..]),
         taken := s.taken + [s.apply.batch[0]],
         needResync := s.needResync || (asks && s.ready),
         applied := if s.ready then s.applied + [s.apply.batch[0]] else s.applied,
         lost := if s.ready then s.lost else s.lost + [s.apply.batch[0]])
    case BatchThrows(asks) =>
      // One handler throws: the rest of the batch is dropped with it.
      s.(apply := Applying([]), needResync := s.needResync || (asks && s.ready),
         taken := s.taken + s.apply.batch, lost := s.lost + s.apply.batch)
    case FinishBatch => s.(apply := Ticking)
    case EndTick => s.(apply := Top)
    case Connect => s.(sync := if s.stop then Stopped else Draining)
    case ApplyIdle => s.(sync := if s.stop then Stopped else Loading)
    case Loaded => s.(needResync := false, sync := Arming)
    case Arm => s.(ready := true, sync := Following)
    case Fail => s.(ready := false, sync := if s.stop then Stopped else Connecting)
    case NoticeResync =>
      // On stop the sync thread leaves without touching ready.
      if s.stop then s.(sync := Stopped) else s.(ready := false, sync := Connecting)
    case NoticeDown =>
      if s.stop then s.(sync := Stopped) else s.(ready := false, needResync := true, sync := Connecting)
    case Enqueue(m) =>
      if |s.queue| > QUEUE_LIMIT then
        s.(queue := [], ready := false, needResync := true, lost := s.lost + s.queue + [m])
      else s.(queue := s.queue + [m])
    case Disconnect => s.(ready := false, needResync := true)
    case Stop => s.(stop := true)
  }

  const Start := State(false, false, false, true, [], Top, Connecting, [], [], [])

  // ---- Every interleaving ----

  predicate Runs(s: State, steps: seq<Step>)
    decreases |steps|
  {
    steps == [] || (Enabled(s, steps[0]) && Runs(Next(s, steps[0]), steps[1..]))
  }

  function After(s: State, steps: seq<Step>): State
    requires Runs(s, steps)
    decreases |steps|
  {
    if steps == [] then s else After(Next(s, steps[0]), steps[1..])
  }

  /** The snapshot owns the engine's state. */
  predicate InSnapshot(s: State) {
    s.sync.Loading? || s.sync.Arming?
  }

  predicate Safe(s: State) {
    && (s.apply.Applying? ==> !s.idle && |s.apply.batch| <= 256)
    && (s.apply.Waiting? ==> s.idle)
    && (s.sync.Connecting? || s.sync.Draining? || InSnapshot(s) ==> !s.ready)
    && (InSnapshot(s) ==> s.idle && !s.apply.Applying?)
  }

  lemma StepIsSafe(s: State, step: Step)
    requires Safe(s) && Enabled(s, step)
    ensures Safe(Next(s, step))
    ensures InSnapshot(s) ==> Next(s, step).taken == s.taken && Next(s, step).applied == s.applied
    ensures InSnapshot(s) && Next(s, step).apply.Ticking? ==> s.apply.Ticking?
  {
  }

  /** In every interleaving, while a snapshot is loading no batch is held. */
  lemma {:induction false} AlwaysSafe(s: State, steps: seq<Step>)
    requires Safe(s) && Runs(s, steps)
    ensures Safe(After(s, steps))
    decreases |steps|
  {
    if steps == [] {
    } else {
      StepIsSafe(s, steps[0]);
      AlwaysSafe(Next(s, steps[0]), steps[1..]);
    }
  }

  /** Every state of a run from waitApplyIdle's return on is still loading. */
  predicate StaysInSnapshot(s: State, steps: seq<Step>)
    requires Runs(s, steps)
    decreases |steps|
  {
    InSnapshot(s) && (steps == [] || StaysInSnapshot(Next(s, steps[0]), steps[1..]))
  }

  lemma {:induction false} SnapshotExcludesApply(s: State, steps: seq<Step>)
    requires Safe(s) && Runs(s, steps) && StaysInSnapshot(s, steps)
    ensures After(s, steps).applied == s.applied && After(s, steps).taken == s.taken
    decreases |steps|
  {
    if steps == [] {
    } else {
      StepIsSafe(s, steps[0]);
      SnapshotExcludesApply(Next(s, steps[0]), steps[1..]);
    }
  }

  /** From the start, between waitApplyIdle returning and ready becoming true no
      queued message is applied, whatever the threads do. */
  lemma NoApplyDuringSnapshot(before: seq<Step>, during: seq<Step>)
    requires Runs(Start, before) && Runs(After(Start, before), during)
    requires StaysInSnapshot(After(Start, before), during)
    ensures After(After(Start, before), during).applied == After(Start, before).applied
    ensures !After(After(Start, before), during).ready
  {
    AlwaysSafe(Start, before);
    SnapshotExcludesApply(After(Start, before), during);
    AlwaysSafe(After(Start, before), during);
    StillInSnapshot(After(Start, before), during);
  }

  /** Only batches are kept out: a tick begun before a resync can still be
      running while the next snapshot loads. */
  lemma TickMayOverlapSnapshot()
    ensures exists steps :: Runs(Start, steps) && InSnapshot(After(Start, steps)) && After(Start, steps).apply.Ticking?
  {
    hide Runs, After;
    ReachesReady();
    var ticking := ReadyStart.(apply := Ticking);
    TickThenResync(ticking);
    Leads(ReadyStart.(apply := Waiting), [Wake, NoticeDown, Connect, ApplyIdle]);
    Leads(ReadyStart, [EnterWait, Wake, NoticeDown, Connect, ApplyIdle]);
    RunsOn(Start, [Connect, ApplyIdle, Loaded, Arm], [EnterWait, Wake, NoticeDown, Connect, ApplyIdle]);
  }

  /** A tick is under way at some point of the run. */
  predicate SometimeTicking(s: State, steps: seq<Step>)
    requires Runs(s, steps)
    decreases |steps|
  {
    s.apply.Ticking? || (steps != [] && SometimeTicking(Next(s, steps[0]), steps[1..]))
  }

  /** It overlaps exactly the snapshots that start while it is under way: no tick
      begins in a snapshot. */
  lemma TickOverlapsExactly(s: State, during: seq<Step>)
    requires Safe(s) && s.sync.Draining? && s.idle && !s.stop
    requires Runs(Next(s, ApplyIdle), during) && StaysInSnapshot(Next(s, ApplyIdle), during)
    ensures SometimeTicking(Next(s, ApplyIdle), during) <==> s.apply.Ticking?
  {
    StepIsSafe(s, ApplyIdle);
    NoTickBegins(Next(s, ApplyIdle), during);
  }

  lemma {:induction false} NoTickBegins(s: State, steps: seq<Step>)
    requires Safe(s) && Runs(s, steps) && StaysInSnapshot(s, steps)
    ensures SometimeTicking(s, steps) ==> s.apply.Ticking?
    decreases |steps|
  {
    hide Next, Enabled;
    if steps == [] {
    } else {
      StepIsSafe(s, steps[0]);
      NoTickBegins(Next(s, steps[0]), steps[1..]);
    }
  }

  /** Ready for the first time, with nothing queued. */
  const ReadyStart := Start.(ready := true, sync := Following)

  lemma ReachesReady()
    ensures Runs(Start, [Connect, ApplyIdle, Loaded, Arm])
            && After(Start, [Connect, ApplyIdle, Loaded, Arm]) == ReadyStart
  {
    var loading := Start.(sync := Loading);
    Leads(Start.(sync := Arming), [Arm]);
    Leads(loading, [Loaded, Arm]);
    Leads(Start.(sync := Draining), [ApplyIdle, Loaded, Arm]);
    Leads(Start, [Connect, ApplyIdle, Loaded, Arm]);
  }

  lemma TickThenResync(s: State)
    requires s == ReadyStart.(apply := Ticking)
    ensures Runs(s, [NoticeDown, Connect, ApplyIdle])
    ensures After(s, [NoticeDown, Connect, ApplyIdle]) == Start.(apply := Ticking, needResync := true, sync := Loading)
  {
    Leads(Start.(apply := Ticking, needResync := true, sync := Draining), [ApplyIdle]);
    Leads(Start.(apply := Ticking, needResync := true), [Connect, ApplyIdle]);
    Leads(s, [NoticeDown, Connect, ApplyIdle]);
  }

  lemma {:induction false} RunsOn(s: State, a: seq<Step>, b: seq<Step>)
    requires Runs(s, a) && Runs(After(s, a), b)
    ensures Runs(s, a + b) && After(s, a + b) == After(After(s, a), b)
    decreases |a|
  {
    if a == [] {
      assert a + b == b;
    } else {
      RunsOn(Next(s, a[0]), a[1..], b);
      assert (a + b)[1..] == a[1..] + b;
    }
  }

  lemma {:induction false} StillInSnapshot(s: State, steps: seq<Step>)
    requires Runs(s, steps) && StaysInSnapshot(s, steps)
    ensures InSnapshot(After(s, steps))
    decreases |steps|
  {
    if steps == [] {
    } else {
      StillInSnapshot(Next(s, steps[0]), steps[1..]);
    }
  }

  // ---- Queue order ----

  function Batch(s: State): seq<Msg> {
    if s.apply.Applying? then s.apply.batch else []
  }

  /** Messages in the order they were queued: out of hand, in hand, still queued. */
  function Flow(s: State): seq<Msg> {
    s.taken + Batch(s) + s.queue
  }

  function Enqueued(steps: seq<Step>): seq<Msg> {
    if steps == [] then [] else (if steps[0].Enqueue? then [steps[0].m] else []) + Enqueued(steps[1..])
  }

  predicate Overflows(s: State, step: Step) {
    step.Enqueue? && |s.queue| > QUEUE_LIMIT
  }

  predicate NeverOverflows(s: State, steps: seq<Step>)
    requires Runs(s, steps)
    decreases |steps|
  {
    steps == [] || (!Overflows(s, steps[0]) && NeverOverflows(Next(s, steps[0]), steps[1..]))
  }

  lemma TakeSplits(queue: seq<Msg>)
    ensures Take(queue) + queue[|Take(queue)|..] == queue
  {
  }

  /** Messages leave in the order they were queued, whether handled or lost; an
      overflow empties the queue instead. */
  lemma StepKeepsOrder(s: State, step: Step)
    requires Enabled(s, step)
    ensures Flow(Next(s, step)) ==
            if Overflows(s, step) then s.taken + Batch(s)
            else if step.Enqueue? then Flow(s) + [step.m]
            else Flow(s)
  {
    hide Take;
    if step.ApplyOne? {
      Append(s.taken, [s.apply.batch[0]], s.apply.batch[1..]);
      assert [s.apply.batch[0]] + s.apply.batch[1..] == s.apply.batch;
    } else if step.BatchThrows? {
      Append(s.taken + s.apply.batch, [], []);
    } else if step.Wake? {
      TakeSplits(s.queue);
      Append(s.taken, [], s.queue);
      Append(s.taken, Take(s.queue), s.queue[|Take(s.queue)|..]);
    } else if step.Enqueue? {
      Append(s.taken + Batch(s), s.queue, [step.m]);
      Append(s.taken + Batch(s), [], []);
    }
  }

  lemma {:induction false} MessagesKeepOrder(s: State, steps: seq<Step>)
    requires Runs(s, steps) && NeverOverflows(s, steps)
    ensures Flow(After(s, steps)) == Flow(s) + Enqueued(steps)
    decreases |steps|
  {
    hide Flow, Next, Enabled, Overflows;
    if steps == [] {
    } else {
      StepKeepsOrder(s, steps[0]);
      MessagesKeepOrder(Next(s, steps[0]), steps[1..]);
      Append(Flow(s), if steps[0].Enqueue? then [steps[0].m] else [], Enqueued(steps[1..]));
    }
  }

  lemma Append(a: seq<Msg>, b: seq<Msg>, c: seq<Msg>)
    ensures (a + b) + c == a + (b + c)
    ensures b == [] ==> a + b == a
  {
  }

  // ---- Lost messages ----

  /** What a step loses: a message handled while not ready, the rest of a batch
      whose handler throws, and on overflow the whole queue with the new message. */
  function Dropped(s: State, step: Step): seq<Msg>
    requires Enabled(s, step)
  {
    if Overflows(s, step) then s.queue + [step.m]
    else if step.BatchThrows? then s.apply.batch
    else if step.ApplyOne? && !s.ready then [s.apply.batch[0]]
    else []
  }

  /** Every message queued is applied, lost, in hand or still queued. */
  function Held(s: State): multiset<Msg> {
    multiset(s.applied) + multiset(Batch(s)) + (multiset(s.lost) + multiset(s.queue))
  }

  lemma StepLosesOnly(s: State, step: Step)
    requires Enabled(s, step)
    ensures Next(s, step).lost == s.lost + Dropped(s, step)
    ensures Held(Next(s, step)) == Held(s) + if step.Enqueue? then multiset{step.m} else multiset{}
  {
    hide Held, Take;
    Append(s.lost, [], []);
    if step.Enqueue? {
      Append(s.lost, s.queue, [step.m]);
      HeldOnEnqueue(s, step.m);
    } else if step.Wake? {
      HeldOnWake(s);
    } else if step.ApplyOne? {
      HeldOnApply(s, step.asks);
    } else {
      HeldOtherwise(s, step);
    }
  }

  lemma HeldOnEnqueue(s: State, m: Msg)
    ensures Held(Next(s, Enqueue(m))) == Held(s) + multiset{m}
  {
    var t := Next(s, Enqueue(m));
    var rest := multiset(s.lost) + multiset(s.queue);
    assert multiset(t.lost) + multiset(t.queue) == rest + multiset{m} by {
      LastOne(s.lost + s.queue, m);
      LastOne(s.queue, m);
    }
    Regroup(multiset(s.applied) + multiset(Batch(s)), rest, m);
  }

  lemma Regroup(a: multiset<Msg>, b: multiset<Msg>, m: Msg)
    ensures a + (b + multiset{m}) == (a + b) + multiset{m}
  {
  }

  lemma LastOne(a: seq<Msg>, m: Msg)
    ensures multiset(a + [m]) == multiset(a) + multiset{m}
  {
  }

  lemma HeldOnWake(s: State)
    requires Enabled(s, Wake)
    ensures Held(Next(s, Wake)) == Held(s)
  {
    hide Take;
    TakeSplits(s.queue);
    assert multiset(s.queue) == multiset(Take(s.queue)) + multiset(s.queue[|Take(s.queue)|..]);
  }

  lemma HeldOnApply(s: State, asks: bool)
    requires Enabled(s, ApplyOne(asks))
    ensures Held(Next(s, ApplyOne(asks))) == Held(s)
  {
    assert s.apply.batch == [s.apply.batch[0]] + s.apply.batch[1..];
  }

  lemma HeldOtherwise(s: State, step: Step)
    requires Enabled(s, step) && !step.Enqueue? && !step.Wake? && !step.ApplyOne?
    ensures Held(Next(s, step)) == Held(s)
  {
  }

  lemma {:induction false} NothingVanishes(s: State, steps: seq<Step>)
    requires Runs(s, steps)
    ensures Held(After(s, steps)) == Held(s) + multiset(Enqueued(steps))
    decreases |steps|
  {
    hide Held, Next, Enabled;
    if steps == [] {
    } else {
      StepLosesOnly(s, steps[0]);
      NothingVanishes(Next(s, steps[0]), steps[1..]);
    }
  }

  /** A new snapshot is begun. */
  predicate Restarts(steps: seq<Step>) {
    exists i :: 0 <= i < |steps| && steps[i].ApplyIdle?
  }

  /** From here the engine cannot be ready with no resync asked for, unless a new
      snapshot has been begun. */
  ghost predicate Recovers(s: State) {
    forall steps: seq<Step> ::
      Runs(s, steps) && After(s, steps).ready && !After(s, steps).needResync ==> Restarts(steps)
  }

  /** A resync is pending or the engine waits for a snapshot yet to begin. */
  predicate Guarded(s: State) {
    (s.needResync && !s.sync.Loading?) || (!s.ready && !InSnapshot(s))
  }

  lemma {:induction false} GuardHolds(s: State, steps: seq<Step>)
    requires Guarded(s) && Runs(s, steps) && !Restarts(steps)
    ensures Guarded(After(s, steps))
    decreases |steps|
  {
    if steps == [] {
    } else {
      assert !steps[0].ApplyIdle?;
      assert forall i :: 0 <= i < |steps[1..]| ==> steps[1..][i] == steps[i + 1];
      GuardHolds(Next(s, steps[0]), steps[1..]);
    }
  }

  lemma RecoversExactly(s: State)
    requires Safe(s)
    ensures Recovers(s) <==> Guarded(s)
  {
    if Guarded(s) {
      forall steps: seq<Step> | Runs(s, steps) && After(s, steps).ready && !After(s, steps).needResync
        ensures Restarts(steps)
      {
        if !Restarts(steps) {
          GuardHolds(s, steps);
        }
      }
    } else if s.sync.Loading? {
      Leads(Next(s, Loaded), [Arm]);
      Leads(s, [Loaded, Arm]);
      assert !Restarts([Loaded, Arm]);
    } else if s.sync.Arming? {
      Leads(s, [Arm]);
      assert !Restarts([Arm]);
    } else {
      assert Runs(s, []) && !Restarts([]);
    }
  }

  /** When a loss is made good by a new snapshot, whatever happens next: after an
      overflow exactly if no snapshot is loading, whose end would withdraw the
      request; after a throw only if a resync is due anyway or the handler asked
      for one before; and always for messages handled while not ready. */
  lemma LossIsRecovered(s: State, step: Step)
    requires Safe(s) && Enabled(s, step) && Dropped(s, step) != []
    ensures Recovers(Next(s, step)) <==>
            if step.Enqueue? then !s.sync.Loading?
            else if step.BatchThrows? then s.needResync || !s.ready || step.asks
            else true
  {
    hide Recovers;
    StepIsSafe(s, step);
    RecoversExactly(Next(s, step));
  }

  const FirstThrow := [EnterWait, Wake, BatchThrows(false)]

  /** One message is queued and taken, and its handler throws. */
  lemma ThrowsAtOnce(m: Msg)
    ensures Runs(ReadyStart, [Enqueue(m)] + FirstThrow)
    ensures After(ReadyStart, [Enqueue(m)] + FirstThrow)
            == ReadyStart.(idle := false, apply := Applying([]), taken := [m], lost := [m])
  {
    hide Runs, After;
    var held := ReadyStart.(queue := [m]);
    var hand := ReadyStart.(idle := false, apply := Applying([m]));
    NoSteps(ReadyStart.(idle := false, apply := Applying([]), taken := [m], lost := [m]));
    Leads(hand, [BatchThrows(false)]);
    assert Take([m]) == [m] && [m][1..] == [];
    assert Next(held.(apply := Waiting), Wake) == hand;
    Leads(held.(apply := Waiting), [Wake, BatchThrows(false)]);
    Leads(held, FirstThrow);
    assert ReadyStart.queue + [m] == [m];
    assert ([Enqueue(m)] + FirstThrow)[1..] == FirstThrow;
    Leads(ReadyStart, [Enqueue(m)] + FirstThrow);
  }

  /** A handler throws on a message of the first batch: the message is lost, and
      the engine is ready with no resync asked for. */
  lemma ThrowIsNotRecovered(m: Msg)
    ensures exists steps :: Runs(Start, steps) && After(Start, steps).lost == [m]
                            && After(Start, steps).ready && !After(Start, steps).needResync
                            && !Recovers(After(Start, steps))
  {
    hide Runs, After, Recovers;
    ReachesReady();
    ThrowsAtOnce(m);
    RunsOn(Start, [Connect, ApplyIdle, Loaded, Arm], [Enqueue(m)] + FirstThrow);
    RecoversExactly(After(Start, [Connect, ApplyIdle, Loaded, Arm] + ([Enqueue(m)] + FirstThrow)));
  }

  lemma NoSteps(s: State)
    ensures Runs(s, []) && After(s, []) == s
  {
  }

  /** Queueing n messages while a snapshot loads. */
  lemma {:induction false} QueuesUp(s: State, m: Msg, n: nat) returns (steps: seq<Step>, queue: seq<Msg>)
    requires |s.queue| + n <= QUEUE_LIMIT + 1
    ensures Runs(s, steps) && After(s, steps) == s.(queue := queue) && |queue| == |s.queue| + n
    decreases n
  {
    if n == 0 {
      steps, queue := [], s.queue;
    } else {
      var rest;
      rest, queue := QueuesUp(s.(queue := s.queue + [m]), m, n - 1);
      steps := [Enqueue(m)] + rest;
      Leads(s, steps);
    }
  }

  /** One message more than the queue holds arrives while the first snapshot loads:
      everything queued is lost, and once the snapshot is loaded the engine is ready
      with no resync asked for. */
  lemma OverflowIsNotRecovered(m: Msg)
    ensures exists steps :: Runs(Start, steps) && |After(Start, steps).lost| > QUEUE_LIMIT
                            && After(Start, steps).ready && !After(Start, steps).needResync
                            && !Recovers(After(Start, steps))
  {
    hide Runs, After, Recovers;
    var loading := Start.(sync := Loading);
    NoSteps(loading);
    Leads(Start.(sync := Draining), [ApplyIdle]);
    Leads(Start, [Connect, ApplyIdle]);
    var more, queue := QueuesUp(loading, m, QUEUE_LIMIT + 1);
    RunsOn(Start, [Connect, ApplyIdle], more);
    LossAtLoad(loading.(queue := queue), m);
    RunsOn(Start, [Connect, ApplyIdle] + more, [Enqueue(m), Loaded, Arm]);
    RecoversExactly(After(Start, [Connect, ApplyIdle] + more + [Enqueue(m), Loaded, Arm]));
  }

  lemma LossAtLoad(s: State, m: Msg)
    requires s == Start.(sync := Loading, queue := s.queue) && |s.queue| == QUEUE_LIMIT + 1
    ensures Runs(s, [Enqueue(m), Loaded, Arm])
    ensures After(s, [Enqueue(m), Loaded, Arm]) == ReadyStart.(lost := s.queue + [m])
  {
    var lost := Start.(sync := Loading, needResync := true, lost := s.queue + [m]);
    NoSteps(ReadyStart.(lost := s.queue + [m]));
    Leads(lost.(needResync := false, sync := Arming), [Arm]);
    Leads(lost, [Loaded, Arm]);
    assert [] + s.queue + [m] == s.queue + [m];
    Leads(s, [Enqueue(m), Loaded, Arm]);
  }

  // ---- Stopping ----

  /** The apply thread's own steps. */
  predicate OfApply(step: Step) {
    step.EnterWait? || step.Wake? || step.ApplyOne? || step.BatchThrows? || step.FinishBatch? || step.EndTick?
  }

  function ApplySteps(steps: seq<Step>): nat {
    if steps == [] then 0 else (if OfApply(steps[0]) then 1 else 0) + ApplySteps(steps[1..])
  }

  /** The apply thread's own next step. */
  function ApplyStep(a: ApplyAt): Step
    requires !a.Exited?
  {
    match a
    case Top => EnterWait
    case Waiting => Wake
    case Applying(batch) => if batch == [] then FinishBatch else ApplyOne(false)
    case Ticking => EndTick
  }

  function Stage(a: ApplyAt): nat {
    match a
    case Exited => 0
    case Waiting => 1
    case Top => 2
    case Ticking => 3
    case Applying(_) => 4
  }

  /** The most steps the apply thread can still take once it is stopping. */
  function Work(s: State): nat {
    6 * |s.queue| + |Batch(s)| + Stage(s.apply)
  }

  predicate NoEnqueue(steps: seq<Step>) {
    forall i :: 0 <= i < |steps| ==> !steps[i].Enqueue?
  }

  predicate NoThrow(steps: seq<Step>) {
    forall i :: 0 <= i < |steps| ==> !steps[i].BatchThrows?
  }

  predicate ApplyOnly(steps: seq<Step>) {
    forall i :: 0 <= i < |steps| ==> OfApply(steps[i])
  }

  lemma Tails(steps: seq<Step>)
    requires steps != []
    ensures NoEnqueue(steps) ==> !steps[0].Enqueue? && NoEnqueue(steps[1..])
    ensures NoThrow(steps) ==> !steps[0].BatchThrows? && NoThrow(steps[1..])
    ensures ApplyOnly(steps) ==> OfApply(steps[0]) && ApplyOnly(steps[1..])
  {
    assert forall i :: 0 <= i < |steps[1..]| ==> steps[1..][i] == steps[i + 1];
  }

  /** While stopping, ready or with nothing queued, each of its steps is one less to take. */
  lemma StoppingWorks(s: State, step: Step)
    requires s.stop && (s.ready || s.queue == []) && Enabled(s, step) && OfApply(step)
    ensures var t := Next(s, step);
            && Work(t) < Work(s) && t.stop && t.ready == s.ready && t.sync == s.sync && (t.ready || t.queue == [])
            && |Batch(t)| <= Max(|Batch(s)|, BATCH_LIMIT)
            && (t.apply.Exited? ==> t.queue == [])
  {
  }

  predicate StaysReady(s: State, steps: seq<Step>)
    requires Runs(s, steps)
    decreases |steps|
  {
    s.ready && (steps == [] || StaysReady(Next(s, steps[0]), steps[1..]))
  }

  lemma ReadyStep(s: State, step: Step)
    requires s.stop && s.ready && Enabled(s, step) && !step.Enqueue? && Next(s, step).ready
    requires s.apply.Exited? ==> s.queue == []
    ensures var t := Next(s, step);
            && t.stop && Work(t) + (if OfApply(step) then 1 else 0) <= Work(s)
            && |Batch(t)| <= Max(|Batch(s)|, BATCH_LIMIT)
            && (t.apply.Exited? ==> t.queue == [])
            && (!step.BatchThrows? ==> t.applied + Batch(t) + t.queue == s.applied + Batch(s) + s.queue)
  {
    hide Work, Take;
    if OfApply(step) {
      StoppingWorks(s, step);
    } else {
      SameWork(s, step);
    }
    if !step.BatchThrows? {
      ReadyStepApplies(s, step);
    }
  }

  lemma SameWork(s: State, step: Step)
    requires Enabled(s, step) && !step.Enqueue? && !OfApply(step)
    ensures Work(Next(s, step)) == Work(s) && Batch(Next(s, step)) == Batch(s)
  {
  }

  lemma ReadyStepApplies(s: State, step: Step)
    requires s.ready && Enabled(s, step) && !step.Enqueue? && !step.BatchThrows?
    ensures var t := Next(s, step); t.applied + Batch(t) + t.queue == s.applied + Batch(s) + s.queue
  {
    hide Take;
    if step.ApplyOne? {
      Append(s.applied, [s.apply.batch[0]], s.apply.batch[1..]);
      assert [s.apply.batch[0]] + s.apply.batch[1..] == s.apply.batch;
    } else if step.Wake? {
      TakeSplits(s.queue);
      Append(s.applied, [], s.queue);
      Append(s.applied, Take(s.queue), s.queue[|Take(s.queue)|..]);
    }
  }

  /** In every run after stop that keeps ready true and queues nothing more: the
      apply thread takes at most `Work` more steps and once it has taken them has
      exited; by then everything queued has left in order, in batches of at most
      256; and all of it was applied unless a handler threw. */
  lemma {:induction false} StopDrains(s: State, steps: seq<Step>)
    requires s.stop && (s.apply.Exited? ==> s.queue == [])
    requires Runs(s, steps) && StaysReady(s, steps) && NoEnqueue(steps)
    ensures var t := After(s, steps);
            && ApplySteps(steps) + Work(t) <= Work(s)
            && (ApplySteps(steps) == Work(s) ==> t.apply.Exited?)
            && (t.apply.Exited? ==> t.queue == [])
            && |Batch(t)| <= Max(|Batch(s)|, BATCH_LIMIT)
            && Flow(t) == Flow(s)
            && (NoThrow(steps) ==> t.applied + Batch(t) + t.queue == s.applied + Batch(s) + s.queue)
    decreases |steps|
  {
    hide Next, Enabled, Flow, Batch, Overflows, NoEnqueue, NoThrow, Work, OfApply;
    WorkDone(s);
    if steps == [] {
    } else {
      Tails(steps);
      assert StaysReady(Next(s, steps[0]), steps[1..]);
      ReadyStep(s, steps[0]);
      QuietStepKeepsOrder(s, steps[0]);
      StopDrains(Next(s, steps[0]), steps[1..]);
    }
  }

  lemma QuietStepKeepsOrder(s: State, step: Step)
    requires Enabled(s, step) && !step.Enqueue?
    ensures Flow(Next(s, step)) == Flow(s)
  {
    hide Next, Flow;
    StepKeepsOrder(s, step);
  }

  lemma WorkDone(s: State)
    ensures Work(s) == 0 ==> s.apply.Exited?
    ensures !s.apply.Exited? ==> Enabled(s, ApplyStep(s.apply)) && OfApply(ApplyStep(s.apply))
  {
  }

  /** The apply thread left to itself, stopped, with the sync thread gone and
      nothing more queued: it exits exactly if ready is true or nothing is queued,
      whatever it holds in hand. Then every way it can go on ends; otherwise it
      never exits, even with other threads at work. */
  lemma StopEndsExactly(s: State)
    requires s.stop && s.sync.Stopped? && !s.apply.Exited?
    ensures (exists steps :: Runs(s, steps) && ApplyOnly(steps) && After(s, steps).apply.Exited?) <==>
              s.ready || s.queue == []
    ensures s.ready || s.queue == [] ==>
              forall steps :: Runs(s, steps) && ApplyOnly(steps) ==>
                |steps| <= Work(s) && (|steps| == Work(s) ==> After(s, steps).apply.Exited?)
    ensures !(s.ready || s.queue == []) ==>
              forall steps :: Runs(s, steps) && NoEnqueue(steps) ==> !After(s, steps).apply.Exited?
  {
    hide Next, Enabled, Work, OfApply;
    if s.ready || s.queue == [] {
      var steps := RunsToExit(s);
      forall steps | Runs(s, steps) && ApplyOnly(steps)
        ensures |steps| <= Work(s) && (|steps| == Work(s) ==> After(s, steps).apply.Exited?)
      {
        StoppingRun(s, steps);
      }
    } else {
      forall steps | Runs(s, steps) && NoEnqueue(steps)
        ensures !After(s, steps).apply.Exited?
      {
        StuckForever(s, steps);
      }
      forall steps | ApplyOnly(steps)
        ensures NoEnqueue(steps)
      {
        ApplyNeverEnqueues(steps);
      }
    }
  }

  lemma ApplyNeverEnqueues(steps: seq<Step>)
    requires ApplyOnly(steps)
    ensures NoEnqueue(steps)
  {
  }

  lemma {:induction false} StoppingRun(s: State, steps: seq<Step>)
    requires s.stop && (s.ready || s.queue == []) && Runs(s, steps) && ApplyOnly(steps)
    ensures |steps| + Work(After(s, steps)) <= Work(s)
    ensures |steps| == Work(s) ==> After(s, steps).apply.Exited?
    decreases |steps|
  {
    hide Next, Enabled, Work, OfApply, ApplyOnly;
    WorkDone(s);
    if steps == [] {
    } else {
      Tails(steps);
      StoppingWorks(s, steps[0]);
      StoppingRun(Next(s, steps[0]), steps[1..]);
    }
  }

  lemma {:induction false} RunsToExit(s: State) returns (steps: seq<Step>)
    requires s.stop && (s.ready || s.queue == [])
    ensures Runs(s, steps) && ApplyOnly(steps) && After(s, steps).apply.Exited?
    decreases Work(s)
  {
    hide Next, Enabled, Work, OfApply;
    if s.apply.Exited? {
      steps := [];
    } else {
      var step := ApplyStep(s.apply);
      WorkDone(s);
      StoppingWorks(s, step);
      var rest := RunsToExit(Next(s, step));
      steps := [step] + rest;
      assert steps[1..] == rest;
    }
  }

  /** Stopped while not ready with messages queued: the exit test can never pass. */
  predicate Stuck(s: State) {
    s.stop && !s.ready && s.sync.Stopped? && s.queue != [] && !s.apply.Exited?
  }

  lemma {:induction false} StuckForever(s: State, steps: seq<Step>)
    requires Stuck(s) && Runs(s, steps) && NoEnqueue(steps)
    ensures Stuck(After(s, steps)) && After(s, steps).queue == s.queue
    decreases |steps|
  {
    hide NoEnqueue;
    if steps == [] {
    } else {
      Tails(steps);
      StuckForever(Next(s, steps[0]), steps[1..]);
    }
  }

  /** The threads can get there: a message queued while the first snapshot
      fails and the engine is told to stop. */
  lemma StuckIsReachable(m: Msg)
    ensures exists steps :: Runs(Start, steps) && Stuck(After(Start, steps))
  {
    var steps := [Connect, EnterWait, ApplyIdle, Enqueue(m), Wake, Stop, Fail];
    var s1 := Next(Start, Connect);
    var s2 := Next(s1, EnterWait);
    var s3 := Next(s2, ApplyIdle);
    var s4 := Next(s3, Enqueue(m));
    var s5 := Next(s4, Wake);
    var s6 := Next(s5, Stop);
    var s7 := Next(s6, Fail);
    assert Stuck(s7);
    Leads(s6, [Fail]);
    Leads(s5, [Stop, Fail]);
    Leads(s4, [Wake, Stop, Fail]);
    Leads(s3, [Enqueue(m), Wake, Stop, Fail]);
    Leads(s2, [ApplyIdle, Enqueue(m), Wake, Stop, Fail]);
    Leads(s1, [EnterWait, ApplyIdle, Enqueue(m), Wake, Stop, Fail]);
    Leads(Start, steps);
    assert Runs(Start, steps) && After(Start, steps) == s7;
  }

  lemma Leads(s: State, steps: seq<Step>)
    requires steps != [] && Enabled(s, steps[0]) && Runs(Next(s, steps[0]), steps[1..])
    ensures Runs(s, steps) && After(s, steps) == After(Next(s, steps[0]), steps[1..])
  {
  }

  /** The loop exits exactly on finding itself stopped with an empty queue. */
  lemma ExitsExactlyWhenEmpty(s: State, step: Step)
    requires Enabled(s, step) && !s.apply.Exited?
    ensures Next(s, step).apply.Exited? <==> step.Wake? && s.stop && s.queue == []
  {
  }
}
