// A path session: one update in flight at a time, deepening as it ages, and
// the status it reports.

module Sessions {
  import opened Prelude
  import opened SearchBudgets

  /** Spreads deepening over sessions: shouldDeepen looks at a younger age. */
  function Staggered(id: nat, ageMs: int): int {
    Max(ageMs - id % 20 * 150, 0)
  }

  class PathSession {
    const id: nat
    const oneShot: bool
    const searchFast: int
    const search: int
    var closing: bool
    var updating: bool
    var searchesDone: nat
    var lastDepth: int

    constructor (id: nat, oneShot: bool, searchFast: int, search: int)
      ensures this.id == id && this.oneShot == oneShot && this.searchFast == searchFast && this.search == search
      ensures !closing && !updating && searchesDone == 0 && lastDepth == searchFast
    {
      this.id, this.oneShot, this.searchFast, this.search := id, oneShot, searchFast, search;
      closing, updating, searchesDone, lastDepth := false, false, 0, searchFast;
    }

    predicate ShouldDeepen(ageMs: int)
      reads this`closing, this`lastDepth
    {
      !oneShot && !closing && DepthFor(false, 0, Staggered(id, ageMs), searchFast, search) > lastDepth
    }

    method TryBeginUpdate() returns (began: bool)
      modifies this`updating
      ensures began == !old(updating) && updating
    {
      if updating {
        return false;
      }
      updating := true;
      return true;
    }

    method EndUpdate()
      modifies this`updating
      ensures !updating
    {
      updating := false;
    }

    /** The depth part of a full search, which may throw once the depth is set;
        it returns the budget searched with. */
    method FullSearch(ageMs: int, throws: bool) returns (budget: SearchBudget)
      modifies this`lastDepth, this`searchesDone
      ensures budget == ForDepth(DepthFor(oneShot, old(searchesDone), ageMs, searchFast, search))
      ensures lastDepth == budget.depth == DepthFor(oneShot, old(searchesDone), ageMs, searchFast, search)
      ensures searchesDone == old(searchesDone) + if throws then 0 else 1
    {
      budget := ForDepth(DepthFor(oneShot, searchesDone, ageMs, searchFast, search));
      lastDepth := budget.depth;
      if throws {
        return;
      }
      searchesDone := searchesDone + 1;
    }
  }

  /** A live session that has only searched at its fast depth. */
  predicate AtFastDepth(s: PathSession)
    reads s`closing, s`lastDepth
  {
    && !s.oneShot && !s.closing
    && s.lastDepth == Max(s.searchFast, 0) < Min(s.search, 4)
  }

  /** Such a session should deepen from four seconds on, a later session up to 2.85
      seconds later; from fifty seconds on every session should that is not at its
      full depth yet; and one that is never should, nor one that replies once only
      or is closing. */
  lemma ShouldDeepenWhen(s: PathSession, ageMs: int)
    ensures AtFastDepth(s) ==> (s.ShouldDeepen(ageMs) <==> ageMs >= 4_000 + s.id % 20 * 150)
    ensures !s.oneShot && !s.closing && ageMs >= 50_000 + s.id % 20 * 150 ==>
              (s.ShouldDeepen(ageMs) <==> s.lastDepth < Clamp(s.search, 0, 4))
    ensures s.oneShot || s.closing || s.lastDepth >= Clamp(s.search, 0, 4) ==> !s.ShouldDeepen(ageMs)
  {
  }

  // ---- Deepening over a session's life ----

  /** searchFast and search as Config clamps them. */
  predicate ValidConfig(searchFast: int, search: int) {
    0 <= searchFast <= search <= MAX_DEPTH
  }

  datatype Depths = Depths(lastDepth: int, searchesDone: nat, now: int, deepens: nat)

  /** What happens to a live session, in order of age: a full search that was
      not a deepen, a deepen asked for at one age and run at a later one, reaching
      the search or not, and revalidates. A search may throw before it counts. */
  datatype Activity =
    | Searched(ran: int, throws: bool)
    | Deepened(asked: int, ran: int, reached: bool, throws: bool)
    | Revalidated(at: int)

  predicate Happens(id: nat, searchFast: int, search: int, s: Depths, a: Activity) {
    match a
    case Searched(ran, _) => s.now <= ran
    case Deepened(asked, ran, _, _) =>
      s.now <= asked <= ran && DepthFor(false, 0, Staggered(id, asked), searchFast, search) > s.lastDepth
    case Revalidated(at) => s.now <= at
  }

  function Lives(searchFast: int, search: int, s: Depths, a: Activity): Depths {
    match a
    case Searched(ran, throws) => AfterSearch(searchFast, search, s, ran, throws)
    case Deepened(_, ran, reached, throws) =>
      if reached then AfterSearch(searchFast, search, s, ran, throws).(deepens := s.deepens + 1) else s.(now := ran)
    case Revalidated(at) => s.(now := at)
  }

  function AfterSearch(searchFast: int, search: int, s: Depths, ran: int, throws: bool): Depths {
    Depths(DepthFor(false, s.searchesDone, ran, searchFast, search), s.searchesDone + if throws then 0 else 1,
           ran, s.deepens)
  }

  predicate Life(id: nat, searchFast: int, search: int, s: Depths, life: seq<Activity>)
    decreases |life|
  {
    life == [] ||
    (Happens(id, searchFast, search, s, life[0])
     && Life(id, searchFast, search, Lives(searchFast, search, s, life[0]), life[1..]))
  }

  function Lived(searchFast: int, search: int, s: Depths, life: seq<Activity>): Depths
    decreases |life|
  {
    if life == [] then s else Lived(searchFast, search, Lives(searchFast, search, s, life[0]), life[1..])
  }

  /** A search now would go at least as deep as the last one did. */
  predicate Deepening(searchFast: int, search: int, s: Depths) {
    && searchFast <= s.lastDepth <= search
    && s.lastDepth <= DepthFor(false, s.searchesDone, s.now, searchFast, search)
    && s.deepens <= s.lastDepth - searchFast
    && 0 <= s.now
  }

  lemma ActivityDeepens(id: nat, searchFast: int, search: int, s: Depths, a: Activity)
    requires ValidConfig(searchFast, search) && Deepening(searchFast, search, s)
             && Happens(id, searchFast, search, s, a)
    ensures Deepening(searchFast, search, Lives(searchFast, search, s, a))
    ensures s.lastDepth <= Lives(searchFast, search, s, a).lastDepth
    ensures a.Deepened? && a.reached ==> s.lastDepth < Lives(searchFast, search, s, a).lastDepth
  {
    hide DepthFor;
    match a
    case Searched(ran, _) =>
      DepthForMonotone(false, s.searchesDone, s.searchesDone, s.now, ran, searchFast, search);
      DepthForMonotone(false, s.searchesDone, s.searchesDone + 1, ran, ran, searchFast, search);
    case Deepened(asked, ran, _, _) =>
      DepthForMonotone(false, 0, s.searchesDone, Staggered(id, asked), ran, searchFast, search);
      DepthForMonotone(false, s.searchesDone, s.searchesDone, s.now, ran, searchFast, search);
      DepthForMonotone(false, s.searchesDone, s.searchesDone + 1, ran, ran, searchFast, search);
    case Revalidated(at) =>
      DepthForMonotone(false, s.searchesDone, s.searchesDone, s.now, at, searchFast, search);
  }

  /** Over a session's life the depth never falls, and the deepens that reach the
      search number at most the distance from the first depth to the target. */
  lemma {:induction false} DeepensAreBounded(id: nat, searchFast: int, search: int, s: Depths, life: seq<Activity>)
    requires ValidConfig(searchFast, search) && Deepening(searchFast, search, s)
    requires Life(id, searchFast, search, s, life)
    ensures s.lastDepth <= Lived(searchFast, search, s, life).lastDepth <= search
    ensures Lived(searchFast, search, s, life).deepens <= search - searchFast <= MAX_DEPTH
    decreases |life|
  {
    if life == [] {
    } else {
      ActivityDeepens(id, searchFast, search, s, life[0]);
      DeepensAreBounded(id, searchFast, search, Lives(searchFast, search, s, life[0]), life[1..]);
    }
  }

  /** A deepen that reaches the search brings the session at least to the depth its
      staggered age asked for, and from fifty seconds on to the full depth. */
  lemma DeepenCatchesUp(id: nat, searchFast: int, search: int, s: Depths, asked: int, ran: int, throws: bool)
    requires ValidConfig(searchFast, search) && Deepening(searchFast, search, s)
    requires Happens(id, searchFast, search, s, Deepened(asked, ran, true, throws))
    ensures var t := Lives(searchFast, search, s, Deepened(asked, ran, true, throws));
            && DepthFor(false, 0, Staggered(id, asked), searchFast, search) <= t.lastDepth
            && (asked >= 50_000 + id % 20 * 150 ==> t.lastDepth == search)
            && t.searchesDone == s.searchesDone + if throws then 0 else 1
  {
    DepthForMonotone(false, 0, s.searchesDone, Staggered(id, asked), ran, searchFast, search);
  }

  /** A session starts that way. */
  lemma NewSessionDeepens(searchFast: int, search: int, ageMs: nat)
    requires ValidConfig(searchFast, search)
    ensures Deepening(searchFast, search, Depths(searchFast, 0, ageMs, 0))
  {
  }

  // ---- One update in flight ----

  datatype Stage = Submitting | Queued | Running

  datatype Job = Job(session: nat, stage: Stage)

  /** Every notify thread and worker shares this; a job is named when begun. */
  datatype Pool = Pool(updating: set<nat>, jobs: map<nat, Job>, begun: multiset<nat>, ended: multiset<nat>)

  datatype PoolStep =
    | TryBegin(session: nat, job: nat)
    | Submitted(job: nat)
    | SubmitThrew(job: nat)
    | Started(job: nat)
    | Finished(job: nat)

  predicate CanStep(p: Pool, step: PoolStep) {
    match step
    case TryBegin(_, job) => job !in p.jobs
    case Submitted(job) => job in p.jobs && p.jobs[job].stage.Submitting?
    case SubmitThrew(job) => job in p.jobs && p.jobs[job].stage.Submitting?
    case Started(job) => job in p.jobs && p.jobs[job].stage.Queued?
    case Finished(job) => job in p.jobs && p.jobs[job].stage.Running?
  }

  /** The job is gone and endUpdate has run, whether the work threw or not. */
  function Ended(p: Pool, job: nat): Pool
    requires job in p.jobs
  {
    var session := p.jobs[job].session;
    p.(updating := p.updating - {session}, jobs := p.jobs - {job}, ended := p.ended + multiset{session})
  }

  function PoolNext(p: Pool, step: PoolStep): Pool
    requires CanStep(p, step)
  {
    match step
    case TryBegin(session, job) =>
      if session in p.updating then p
      else p.(updating := p.updating + {session}, jobs := p.jobs[job := Job(session, Submitting)],
              begun := p.begun + multiset{session})
    case Submitted(job) => p.(jobs := p.jobs[job := p.jobs[job].(stage := Queued)])
    case SubmitThrew(job) => Ended(p, job)
    case Started(job) => p.(jobs := p.jobs[job := p.jobs[job].(stage := Running)])
    case Finished(job) => Ended(p, job)
  }

  /** A session is updating exactly while one job is in flight for it, and every
      begin but that one has been ended exactly once. */
  ghost predicate OneInFlight(p: Pool) {
    && (forall j, k :: j in p.jobs && k in p.jobs && j != k ==> p.jobs[j].session != p.jobs[k].session)
    && (forall j :: j in p.jobs ==> p.jobs[j].session in p.updating)
    && (forall s :: s in p.updating ==> exists j :: j in p.jobs && p.jobs[j].session == s)
    && (forall s: nat :: p.begun[s] == p.ended[s] + if s in p.updating then 1 else 0)
  }

  lemma BeginKeepsOne(p: Pool, session: nat, job: nat)
    requires OneInFlight(p) && job !in p.jobs
    ensures OneInFlight(PoolNext(p, TryBegin(session, job)))
  {
    var q := PoolNext(p, TryBegin(session, job));
    forall s | s in q.updating
      ensures exists j :: j in q.jobs && q.jobs[j].session == s
    {
      if s in p.updating {
        var j :| j in p.jobs && p.jobs[j].session == s;
        assert j in q.jobs && q.jobs[j].session == s;
      } else {
        assert job in q.jobs && q.jobs[job].session == s;
      }
    }
  }

  lemma StageKeepsOne(p: Pool, job: nat, stage: Stage)
    requires OneInFlight(p) && job in p.jobs
    ensures OneInFlight(p.(jobs := p.jobs[job := p.jobs[job].(stage := stage)]))
  {
    var jobs := p.jobs[job := p.jobs[job].(stage := stage)];
    forall s | s in p.updating
      ensures exists j :: j in jobs && jobs[j].session == s
    {
      var j :| j in p.jobs && p.jobs[j].session == s;
      assert j in jobs && jobs[j].session == s;
    }
  }

  lemma EndKeepsOne(p: Pool, job: nat)
    requires OneInFlight(p) && job in p.jobs
    ensures OneInFlight(Ended(p, job))
  {
    var q := Ended(p, job);
    forall s | s in q.updating
      ensures exists j :: j in q.jobs && q.jobs[j].session == s
    {
      var j :| j in p.jobs && p.jobs[j].session == s;
      assert j in q.jobs && q.jobs[j].session == s;
    }
  }

  predicate PoolRuns(p: Pool, steps: seq<PoolStep>)
    decreases |steps|
  {
    steps == [] || (CanStep(p, steps[0]) && PoolRuns(PoolNext(p, steps[0]), steps[1..]))
  }

  function PoolAfter(p: Pool, steps: seq<PoolStep>): Pool
    requires PoolRuns(p, steps)
    decreases |steps|
  {
    if steps == [] then p else PoolAfter(PoolNext(p, steps[0]), steps[1..])
  }

  /** In every run of notify threads and workers. */
  lemma {:induction false} AlwaysOneInFlight(p: Pool, steps: seq<PoolStep>)
    requires OneInFlight(p) && PoolRuns(p, steps)
    ensures OneInFlight(PoolAfter(p, steps))
    decreases |steps|
  {
    if steps == [] {
    } else {
      match steps[0] {
        case TryBegin(session, job) => BeginKeepsOne(p, session, job);
        case Submitted(job) => StageKeepsOne(p, job, Queued);
        case SubmitThrew(job) => EndKeepsOne(p, job);
        case Started(job) => StageKeepsOne(p, job, Running);
        case Finished(job) => EndKeepsOne(p, job);
      }
      AlwaysOneInFlight(PoolNext(p, steps[0]), steps[1..]);
    }
  }

  /** An update begins exactly if none is in flight for the session, which then has one. */
  lemma BeginsWhenFree(p: Pool, session: nat, job: nat)
    requires OneInFlight(p) && job !in p.jobs
    ensures var q := PoolNext(p, TryBegin(session, job));
            && session in q.updating
            && (job in q.jobs <==> forall j :: j in p.jobs ==> p.jobs[j].session != session)
            && (job in q.jobs ==> q.jobs[job] == Job(session, Submitting))
            && forall j :: j != job ==> (j in q.jobs <==> j in p.jobs) && (j in p.jobs ==> q.jobs[j] == p.jobs[j])
  {
  }

  /** Whatever stage a job is at, its own steps end it, and its session can begin
      another update. */
  lemma JobEnds(p: Pool, job: nat) returns (steps: seq<PoolStep>)
    requires OneInFlight(p) && job in p.jobs
    ensures PoolRuns(p, steps)
    ensures |steps| <= match p.jobs[job].stage case Submitting => 3 case Queued => 2 case Running => 1
    ensures var q := PoolAfter(p, steps);
            && job !in q.jobs && p.jobs[job].session !in q.updating
            && q.begun == p.begun && q.ended == p.ended + multiset{p.jobs[job].session}
    decreases match p.jobs[job].stage case Submitting => 2 case Queued => 1 case Running => 0
  {
    hide OneInFlight, PoolRuns, PoolAfter;
    match p.jobs[job].stage
    case Running =>
      NoPoolSteps(PoolNext(p, Finished(job)));
      steps := [Finished(job)];
      OneStepFirst(p, Finished(job), []);
      assert [Finished(job)] + [] == steps;
    case Queued =>
      StageKeepsOne(p, job, Running);
      var rest := JobEnds(PoolNext(p, Started(job)), job);
      steps := [Started(job)] + rest;
      OneStepFirst(p, Started(job), rest);
    case Submitting =>
      StageKeepsOne(p, job, Queued);
      var rest := JobEnds(PoolNext(p, Submitted(job)), job);
      steps := [Submitted(job)] + rest;
      OneStepFirst(p, Submitted(job), rest);
  }

  lemma NoPoolSteps(p: Pool)
    ensures PoolRuns(p, []) && PoolAfter(p, []) == p
  {
  }

  lemma OneStepFirst(p: Pool, step: PoolStep, rest: seq<PoolStep>)
    requires CanStep(p, step) && PoolRuns(PoolNext(p, step), rest)
    ensures PoolRuns(p, [step] + rest) && PoolAfter(p, [step] + rest) == PoolAfter(PoolNext(p, step), rest)
  {
    assert ([step] + rest)[1..] == rest;
  }

  // ---- One notify turn ----

  const DEEPENS_PER_TURN := 4

  /** What one turn does for one session: no job, or one that deepens or not. */
  type Outcome = Option<bool>

  /** Begins an update unless one is in flight. A submit that throws ends the
      update again, but keeps the deepen it had claimed. */
  method NotifyOne(s: PathSession, ageMs: int, revalidateOnly: bool, deepenLeft: nat, submitThrows: bool)
    returns (job: Outcome, left: nat)
    modifies s`updating
    ensures s.updating <==> old(s.updating) || !submitThrows
    ensures job.Some? <==> !old(s.updating) && !submitThrows
    ensures left == if !old(s.updating) && revalidateOnly && s.ShouldDeepen(ageMs) && deepenLeft > 0
                    then deepenLeft - 1 else deepenLeft
    ensures job.Some? ==> job.value == (!revalidateOnly || left < deepenLeft)
  {
    job, left := None, deepenLeft;
    var began := s.TryBeginUpdate();
    if !began {
      return;
    }
    var reval := revalidateOnly;
    if reval && s.ShouldDeepen(ageMs) && left > 0 {
      reval := false;
      left := left - 1;
    }
    if submitThrows {
      s.EndUpdate();
    } else {
      job := Some(!reval);
    }
  }

  /** A session not updating that should deepen. */
  predicate WantsDeepen(s: PathSession, ageMs: int)
    reads s`updating, s`closing, s`lastDepth
  {
    !s.updating && s.ShouldDeepen(ageMs)
  }

  function Wanting(live: seq<PathSession>, ages: seq<int>): (wants: seq<bool>)
    requires |ages| == |live|
    reads live`updating, live`closing, live`lastDepth
    ensures |wants| == |live|
    ensures forall i :: 0 <= i < |live| ==> wants[i] == WantsDeepen(live[i], ages[i])
  {
    if live == [] then []
    else Wanting(live[..|live| - 1], ages[..|ages| - 1]) + [WantsDeepen(live[|live| - 1], ages[|ages| - 1])]
  }

  function CountTrue(s: seq<bool>): nat {
    if s == [] then 0 else CountTrue(s[..|s| - 1]) + if s[|s| - 1] then 1 else 0
  }

  lemma {:induction false} CountsTheTrue(s: seq<bool>)
    ensures CountTrue(s) == |set i: nat | i < |s| && s[i]|
  {
    var hits := set i: nat | i < |s| && s[i];
    if s == [] {
      assert hits == {};
    } else {
      var n := |s| - 1;
      CountsTheTrue(s[..n]);
      var before := set i: nat | i < n && s[..n][i];
      assert hits == before + if s[n] then {n} else {};
    }
  }

  lemma CountNext(s: seq<bool>, i: nat)
    requires i < |s|
    ensures CountTrue(s[..i + 1]) == CountTrue(s[..i]) + if s[i] then 1 else 0
  {
    assert s[..i + 1][..i] == s[..i];
  }

  lemma FastWant(live: seq<PathSession>, ages: seq<int>)
    requires |ages| == |live|
    ensures forall i :: 0 <= i < |live| && AtFastDepth(live[i]) && !live[i].updating ==>
              (ages[i] >= 4_000 + live[i].id % 20 * 150 ==> Wanting(live, ages)[i])
  {
    hide Wanting, AtFastDepth;
    forall i | 0 <= i < |live| && AtFastDepth(live[i])
      ensures ages[i] >= 4_000 + live[i].id % 20 * 150 ==> live[i].ShouldDeepen(ages[i])
    {
      ShouldDeepenWhen(live[i], ages[i]);
    }
  }

  /** One turn: a job for exactly the sessions not yet updating whose submit does
      not throw, and a revalidate becomes a deepen exactly when its session should
      deepen and fewer than four before it in the turn wanted to; so does one of a
      session still at its fast depth whose time has come. */
  method NotifySubscriptions(live: seq<PathSession>, ages: seq<int>, revalidateOnly: bool, throws: seq<bool>)
    returns (outcomes: seq<Outcome>)
    requires |ages| == |live| == |throws|
    requires forall i, j :: 0 <= i < j < |live| ==> live[i] != live[j]
    modifies live`updating
    ensures |outcomes| == |live|
    ensures forall i :: 0 <= i < |live| ==> (live[i].updating <==> old(live[i].updating) || !throws[i])
    ensures forall i :: 0 <= i < |live| ==> (outcomes[i].Some? <==> !old(live[i].updating) && !throws[i])
    ensures var wants := old(Wanting(live, ages));
            forall i :: 0 <= i < |live| && outcomes[i].Some? ==>
              outcomes[i].value == (!revalidateOnly || (wants[i] && CountTrue(wants[..i]) < 4))
    ensures var wants := old(Wanting(live, ages));
            forall i :: 0 <= i < |live| && outcomes[i].Some? && AtFastDepth(live[i]) ==>
              (ages[i] >= 4_000 + live[i].id % 20 * 150 && CountTrue(wants[..i]) < 4 ==> outcomes[i] == Some(true))
    ensures revalidateOnly ==> CountTrue(Deepens(outcomes)) <= 4
  {
    hide Wanting, CountTrue, AtFastDepth;
    outcomes := [];
    ghost var wants := Wanting(live, ages);
    FastWant(live, ages);
    var deepenLeft: nat := DEEPENS_PER_TURN;
    CountNone(wants);
    for i := 0 to |live|
      invariant |outcomes| == i
      invariant !revalidateOnly || deepenLeft == Max(0, DEEPENS_PER_TURN - CountTrue(wants[..i]))
      invariant forall j :: i <= j < |live| ==> live[j].updating == old(live[j].updating)
      invariant forall j :: 0 <= j < i ==> (live[j].updating <==> old(live[j].updating) || !throws[j])
      invariant forall j :: 0 <= j < i ==> (outcomes[j].Some? <==> !old(live[j].updating) && !throws[j])
      invariant forall j :: 0 <= j < i && outcomes[j].Some? ==>
                  outcomes[j].value == (!revalidateOnly || (wants[j] && CountTrue(wants[..j]) < DEEPENS_PER_TURN))
    {
      CountNext(wants, i);
      var job;
      job, deepenLeft := NotifyOne(live[i], ages[i], revalidateOnly, deepenLeft, throws[i]);
      outcomes := outcomes + [job];
    }
    if revalidateOnly {
      FewDeepens(wants, Deepens(outcomes));
    }
  }

  /** Which jobs deepen. */
  function Deepens(outcomes: seq<Outcome>): seq<bool> {
    seq(|outcomes|, i requires 0 <= i < |outcomes| => outcomes[i] == Some(true))
  }

  lemma CountNone(wants: seq<bool>)
    ensures CountTrue(wants[..0]) == 0
  {
  }

  /** Deepens granted to the first four that want one are at most four. */
  lemma {:induction false} FewDeepens(wants: seq<bool>, deepens: seq<bool>)
    requires |deepens| == |wants|
    requires forall i :: 0 <= i < |wants| && deepens[i] ==> wants[i] && CountTrue(wants[..i]) < DEEPENS_PER_TURN
    ensures CountTrue(deepens) <= Min(DEEPENS_PER_TURN, CountTrue(wants))
  {
    if wants == [] {
    } else {
      var n := |wants| - 1;
      assert forall i :: 0 <= i < n ==> wants[..n][..i] == wants[..i];
      FewDeepens(wants[..n], deepens[..n]);
    }
  }

  // ---- The reported status ----

  datatype Warning = RevalidateFailed | LinesBudget | LinesPartial

  /** The parts of jvStatus_ an update decides; alternatives are opaque here. */
  datatype Status = Status(alternatives: seq<nat>, fullReply: bool, warning: Option<Warning>, error: bool,
                           success: bool)

  const ErrorStatus := Status([], false, None, true, false)

  /** The first notice on a reply stays; an error carries none. */
  function WithNotice(s: Status, w: Warning): Status {
    if s.error || s.warning.Some? then s else s.(warning := Some(w))
  }

  const MAX_SOURCES := 18

  /** How many automatic source currencies a search of this budget may have. */
  function SourceCap(budget: SearchBudget): int {
    Min(budget.autoSources, MAX_SOURCES)
  }

  /** What one update meets: whether its accounts are still valid, how many source
      currencies there are if they are chosen automatically, what the search finds
      and the state of the line cache. */
  datatype Round = Round(valid: bool, autoSources: Option<nat>, budget: SearchBudget, found: seq<nat>, overBudget: bool,
                         incomplete: bool)

  /** The two ways an update gives up: isValid, and too many sources in findPaths. */
  predicate Fails(r: Round) {
    !r.valid || (r.autoSources.Some? && r.autoSources.value > SourceCap(r.budget))
  }

  /** doUpdate's status. */
  function Updated(prev: Status, subscription: bool, fullSearch: bool, r: Round): Status {
    if Fails(r) then ErrorStatus
    else
      var s := if r.found == [] && subscription && !fullSearch && prev.alternatives != []
               then WithNotice(Status(prev.alternatives, false, None, false, false), RevalidateFailed)
               else Status(r.found, fullSearch, None, false, r.found != []);
      if r.overBudget && r.incomplete then WithNotice(s, LinesBudget)
      else if r.incomplete then WithNotice(s, LinesPartial)
      else s
  }

  /** A subscription's status after a run of revalidates. */
  function Revalidated(prev: Status, rounds: seq<Round>): Status {
    if rounds == [] then prev
    else Updated(Revalidated(prev, rounds[..|rounds| - 1]), true, false, rounds[|rounds| - 1])
  }

  /** A stale reply is always marked as one, and never presented as a full one,
      whatever came before. */
  lemma StaleRepliesAreMarked(prev: Status, rounds: seq<Round>)
    requires rounds != []
    ensures var s, last := Revalidated(prev, rounds), rounds[|rounds| - 1];
            && !s.fullReply && (s.error <==> Fails(last))
            && (!Fails(last) && s.alternatives != last.found ==> s.warning == Some(RevalidateFailed) && !s.success)
            && (s.warning == Some(RevalidateFailed) ==> last.found == [] && s.alternatives != [])
            && (s.success <==> !Fails(last) && last.found != [])
  {
  }

  /** An update fails exactly if an account is not valid or the source currencies,
      chosen automatically, are more than the budget or eighteen. */
  lemma UpdateFails(prev: Status, subscription: bool, fullSearch: bool, r: Round)
    ensures Updated(prev, subscription, fullSearch, r) == ErrorStatus <==>
              !r.valid || (r.autoSources.Some? && r.autoSources.value > Min(r.budget.autoSources, 18))
    ensures ErrorStatus.alternatives == [] && ErrorStatus.error && !ErrorStatus.success && !ErrorStatus.fullReply
  {
  }

  /** A full search replaces what was listed by what it found, and only the state of
      the line cache puts a notice on its reply. */
  lemma FullSearchReplaces(prev: Status, subscription: bool, r: Round)
    requires r.valid && (r.autoSources.Some? ==> r.autoSources.value <= Min(r.budget.autoSources, 18))
    ensures var s := Updated(prev, subscription, true, r);
            && s.alternatives == r.found && s.fullReply && !s.error && (s.success <==> r.found != [])
            && (s.warning == Some(LinesBudget) <==> r.incomplete && r.overBudget)
            && (s.warning == Some(LinesPartial) <==> r.incomplete && !r.overBudget)
            && s.warning != Some(RevalidateFailed)
  {
  }

  /** A revalidate lists what it found; only when that is nothing does a subscription
      keep what it listed before, marked as stale and not as a success. */
  lemma RevalidateKeepsOrReplaces(prev: Status, subscription: bool, r: Round)
    requires r.valid && (r.autoSources.Some? ==> r.autoSources.value <= Min(r.budget.autoSources, 18))
    ensures var s := Updated(prev, subscription, false, r);
            var stale := r.found == [] && subscription && prev.alternatives != [];
            && s.alternatives == (if stale then prev.alternatives else r.found) && !s.fullReply && !s.error
            && (s.success <==> r.found != [])
            && (s.warning == Some(RevalidateFailed) <==> stale)
            && (s.warning == Some(LinesBudget) <==> !stale && r.incomplete && r.overBudget)
            && (s.warning == Some(LinesPartial) <==> !stale && r.incomplete && !r.overBudget)
  {
  }

  /** The reply lists alternatives at every point of the run. */
  predicate AlwaysListed(prev: Status, rounds: seq<Round>) {
    && Revalidated(prev, rounds).alternatives != []
    && (rounds == [] || AlwaysListed(prev, rounds[..|rounds| - 1]))
  }

  /** A reply with alternatives keeps some throughout a run of revalidates exactly
      if none of them fails. */
  lemma {:induction false} RevalidatesKeepAlternatives(prev: Status, rounds: seq<Round>)
    requires prev.alternatives != []
    ensures AlwaysListed(prev, rounds) <==> forall i :: 0 <= i < |rounds| ==> !Fails(rounds[i])
  {
    hide Fails;
    if rounds == [] {
    } else {
      var before := rounds[..|rounds| - 1];
      RevalidatesKeepAlternatives(prev, before);
      assert rounds == before + [rounds[|rounds| - 1]];
    }
  }

  /** One does fail, and drops them, for an account with seven currencies at the
      shallowest depth. */
  lemma RevalidateCanDropAlternatives(prev: Status)
    requires prev.alternatives != []
    ensures Revalidated(prev, [Round(true, Some(7), ForDepth(0), [], false, false)]) == ErrorStatus
  {
    var rounds := [Round(true, Some(7), ForDepth(0), [], false, false)];
    assert rounds[..0] == [];
    assert Fails(rounds[0]);
  }
}
