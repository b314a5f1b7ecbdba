// What the threads can always still do: take whole batches, come to rest for a
// snapshot, drain the queue and get a resync done.

module ApplyProgress {
  import opened Prelude
  import opened ApplyProtocol

  // ---- One step ----

  /** A wake-up while ready takes the first messages of the queue, 256 or all there
      are; while not ready it takes none, and none when there are none. */
  lemma WakeTakes(s: State)
    requires s.apply.Waiting?
    ensures var t, n := Next(s, Wake), Min(|s.queue|, 256);
            && (s.ready && s.queue != [] ==>
                  t.apply == Applying(s.queue[..n]) && t.queue == s.queue[n..] && !t.idle)
            && (!s.ready || s.queue == [] ==> t.queue == s.queue && !t.apply.Applying? && t.idle == s.idle)
            && (t.apply.Ticking? ==> s.ready && !s.stop)
  {
  }

  /** A message is queued unless more than 100000 are waiting; then the queue is
      emptied and a resync asked for. */
  lemma EnqueueTakes(s: State, m: Msg)
    ensures var t := Next(s, Enqueue(m));
            if |s.queue| <= 100_000 then t == s.(queue := s.queue + [m])
            else t.queue == [] && t.lost == s.lost + s.queue + [m] && !t.ready && t.needResync
  {
  }

  /** A message taken is applied exactly if the engine is ready then; if its handler
      asks for a resync there will be one. */
  lemma ApplyTakes(s: State, asks: bool)
    requires s.apply.Applying? && s.apply.batch != [] && Safe(s)
    ensures var t, m := Next(s, ApplyOne(asks)), s.apply.batch[0];
            && t.taken == s.taken + [m] && t.apply == Applying(s.apply.batch[1..])
            && t.applied == (if s.ready then s.applied + [m] else s.applied)
            && t.lost == (if s.ready then s.lost else s.lost + [m])
            && (asks && s.ready ==> Recovers(t))
  {
    hide Recovers;
    StepIsSafe(s, ApplyOne(asks));
    RecoversExactly(Next(s, ApplyOne(asks)));
  }

  /** When the connection drops or the sync thread notices that it must start over,
      a new snapshot follows before the engine is ready with no resync asked for,
      unless one is loading as the connection drops: its end withdraws the request. */
  lemma ResyncsAreMade(s: State, step: Step)
    requires Safe(s) && Enabled(s, step) && !s.stop
    requires step.Disconnect? || step.NoticeResync? || step.NoticeDown? || step.Fail?
    ensures !Next(s, step).ready
    ensures Recovers(Next(s, step)) <==> !(step.Disconnect? && s.sync.Loading?)
  {
    hide Recovers;
    StepIsSafe(s, step);
    RecoversExactly(Next(s, step));
  }

  // ---- Coming to rest ----

  predicate Quiet(steps: seq<Step>) {
    forall i :: 0 <= i < |steps| ==> !steps[i].Enqueue? && !steps[i].BatchThrows? && !steps[i].Stop?
  }

  lemma OneMore(s: State, step: Step, rest: seq<Step>)
    requires Enabled(s, step) && Runs(Next(s, step), rest)
    ensures Runs(s, [step] + rest) && After(s, [step] + rest) == After(Next(s, step), rest)
  {
    assert ([step] + rest)[1..] == rest;
    Leads(s, [step] + rest);
  }

  /** Left alone, the apply thread finishes what it holds and comes to rest. */
  lemma {:induction false} ComesToRest(s: State) returns (steps: seq<Step>)
    requires Safe(s) && !s.apply.Exited?
    ensures Runs(s, steps) && ApplyOnly(steps) && NoThrow(steps)
    ensures |steps| < |Batch(s)| + Stage(s.apply) <= |Batch(s)| + 4
    ensures var t := After(s, steps);
            && t.idle && t.apply.Waiting? && Safe(t)
            && t.sync == s.sync && t.ready == s.ready && t.stop == s.stop && t.needResync == s.needResync
            && t.queue == s.queue && (s.ready ==> t.applied == s.applied + Batch(s) && t.lost == s.lost)
    decreases |Batch(s)|, Stage(s.apply)
  {
    hide Runs, After, Next, Enabled, Safe, Batch;
    if s.apply.Waiting? {
      NoSteps(s);
      steps := [];
      AtRest(s);
    } else {
      var step := ApplyStep(s.apply);
      StepIsSafe(s, step);
      TowardsRest(s);
      var rest := ComesToRest(Next(s, step));
      OneMore(s, step, rest);
      steps := [step] + rest;
    }
  }

  lemma AtRest(s: State)
    requires Safe(s) && s.apply.Waiting?
    ensures s.idle && Batch(s) == [] && s.applied + Batch(s) == s.applied
  {
  }

  /** Its own next step leaves less to do and only moves messages on. */
  lemma TowardsRest(s: State)
    requires !s.apply.Exited? && !s.apply.Waiting?
    ensures Enabled(s, ApplyStep(s.apply))
    ensures var step := ApplyStep(s.apply);
            var t := Next(s, step);
            && OfApply(step) && !step.BatchThrows? && !t.apply.Exited?
            && (|Batch(t)| < |Batch(s)| || (|Batch(t)| == |Batch(s)| && Stage(t.apply) < Stage(s.apply)))
            && |Batch(t)| + Stage(t.apply) < |Batch(s)| + Stage(s.apply)
            && t.sync == s.sync && t.ready == s.ready && t.stop == s.stop && t.needResync == s.needResync
            && t.queue == s.queue
            && (s.ready ==> t.applied + Batch(t) == s.applied + Batch(s) && t.lost == s.lost)
  {
    if s.apply.Applying? && s.apply.batch != [] {
      assert [s.apply.batch[0]] + s.apply.batch[1..] == s.apply.batch;
    }
  }

  /** While ready the apply thread can apply everything it holds and everything
      queued, in order. */
  lemma {:induction false} QueueCanDrain(s: State) returns (steps: seq<Step>)
    requires Safe(s) && s.ready && !s.stop && !s.apply.Exited?
    ensures Runs(s, steps) && ApplyOnly(steps)
    ensures var t := After(s, steps);
            && t.queue == [] && Batch(t) == [] && t.lost == s.lost
            && t.applied == s.applied + Batch(s) + s.queue && t.ready && !t.apply.Exited?
    decreases |s.queue|
  {
    hide Runs, After, Take;
    var first := ComesToRest(s);
    var t := After(s, first);
    steps := first;
    if t.queue == [] {
      assert s.applied + Batch(s) + s.queue == s.applied + Batch(s);
    } else {
      TakeIsPositive(t.queue);
      TakeSplits(t.queue);
      StepIsSafe(t, Wake);
      var rest := QueueCanDrain(Next(t, Wake));
      OneMore(t, Wake, rest);
      RunsOn(s, first, [Wake] + rest);
      steps := first + ([Wake] + rest);
      Append(t.applied, Take(t.queue), t.queue[|Take(t.queue)|..]);
    }
  }

  lemma TakeIsPositive(queue: seq<Msg>)
    requires queue != []
    ensures |Take(queue)| > 0
  {
  }

  // ---- Getting a resync done ----

  /** From wherever the threads are, unless they are stopping, a new snapshot can
      still be loaded and the engine be ready with no resync asked for and nothing
      in hand, with every message still queued that was. */
  lemma ResyncCanComplete(s: State) returns (steps: seq<Step>)
    requires Safe(s) && !s.stop && !s.apply.Exited? && !s.sync.Stopped?
    ensures Runs(s, steps) && Restarts(steps) && Quiet(steps)
    ensures var t := After(s, steps);
            t.ready && !t.needResync && t.sync.Following? && t.queue == s.queue && Batch(t) == []
  {
    hide Runs, After, Quiet, ApplyOnly, NoThrow;
    var back := StartsOver(s);
    var t := After(s, back);
    var rest := ComesToRest(t);
    var u := After(t, rest);
    var load := [ApplyIdle, Loaded, Arm];
    assert Quiet(load) by { LoadIsQuiet(); }
    assert [Arm] + [] == [Arm] && [Loaded] + [Arm] == [Loaded, Arm] && [ApplyIdle] + [Loaded, Arm] == load;
    var armed := u.(needResync := false, sync := Arming);
    NoSteps(Next(armed, Arm));
    OneMore(armed, Arm, []);
    OneMore(u.(sync := Loading), Loaded, [Arm]);
    OneMore(u, ApplyIdle, [Loaded, Arm]);
    RunsOn(t, rest, load);
    RunsOn(s, back, rest + load);
    steps := back + (rest + load);
    assert steps[|back| + |rest|] == ApplyIdle;
    ApplyIsQuiet(rest);
    QuietJoins(rest, load);
    QuietJoins(back, rest + load);
  }

  lemma ApplyIsQuiet(steps: seq<Step>)
    requires ApplyOnly(steps) && NoThrow(steps)
    ensures Quiet(steps)
  {
  }

  lemma LoadIsQuiet()
    ensures Quiet([ApplyIdle, Loaded, Arm])
  {
  }

  lemma QuietJoins(a: seq<Step>, b: seq<Step>)
    requires Quiet(a) && Quiet(b)
    ensures Quiet(a + b)
  {
  }

  /** The sync thread can always get back to waiting for the apply thread. */
  lemma StartsOver(s: State) returns (steps: seq<Step>)
    requires Safe(s) && !s.stop && !s.apply.Exited? && !s.sync.Stopped?
    ensures Runs(s, steps) && Quiet(steps)
    ensures var t := After(s, steps);
            && t.sync.Draining? && !t.stop && !t.apply.Exited? && Safe(t) && t.queue == s.queue && t.apply == s.apply
  {
    match s.sync
    case Draining => steps := [];
    case Connecting => steps := [Connect];
    case Loading => steps := [Fail, Connect];
    case Arming => steps := [Arm, NoticeDown, Connect];
    case Following => steps := [NoticeDown, Connect];
  }
}
