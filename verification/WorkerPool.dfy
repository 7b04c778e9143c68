/**
 The bounded worker pool as a transition system over every schedule of the parent loop, the workers
 and whoever cancels the context.  One step is one statement of the program text: a check of the
 context, a channel operation, a WaitGroup operation, a spawn, a job's return, or a slot write.
 */
module WorkerPool {
  import opened Wrappers

  /** Where worker `i` stands.  The deferred calls run in reverse order: the token goes back before
      the WaitGroup is told. */
  datatype Phase<R> =
    | Waiting              // the parent has not reached this job
    | Running              // inside job(ctx)
    | Returned(result: R)  // the job is back, its slot not yet written
    | Stored               // slot written, token still held
    | Released             // token given back, wg.Done still to come
    | Finished
    | Skipped              // the parent wrote ctx.Err() instead of launching

  datatype ParentPc = Checking | Acquiring | Adding | Spawning | Joining | Done

  /** `returned`, `writes` and `launched` only record history. */
  datatype State<R> = State(
    parent: ParentPc,
    next: nat,
    cancelled: bool,
    tokens: nat,
    wg: nat,
    workers: seq<Phase<R>>,
    slots: seq<Option<R>>,
    writes: seq<nat>,
    returned: seq<Option<R>>,
    launched: nat)

  datatype Step<R> =
    | Cancel
    | Check
    | Acquire
    | AddToGroup
    | Spawn
    | LeaveLoop
    | Join
    | Return(worker: nat, result: R)
    | Store(worker: nat)
    | ReleaseToken(worker: nat)
    | LeaveGroup(worker: nat)

  /** What a call of the pool is given: `jobs` jobs, the requested concurrency, the context's error. */
  datatype Call<R> = Call(jobs: nat, concurrency: int, ctxErr: R) {
    /** The semaphore's capacity. */
    function Capacity(): (c: nat)
      ensures c >= 1 && (concurrency >= 1 ==> c == concurrency) && (c > 1 ==> concurrency > 1)
    {
      if concurrency < 1 then 1 else concurrency
    }

    function Init(): State<R> {
      State(Checking, 0, false, 0, 0,
            seq(jobs, i => Waiting), seq(jobs, i => None), seq(jobs, i => 0), seq(jobs, i => None), 0)
    }

    ghost predicate Enabled(s: State<R>, step: Step<R>) {
      match step
      case Cancel => !s.cancelled
      case Check => s.parent == Checking && s.next < jobs
      case Acquire => s.parent == Acquiring && s.tokens < Capacity()
      case AddToGroup => s.parent == Adding
      case Spawn => s.parent == Spawning && s.next < |s.workers|
      case LeaveLoop => s.parent == Checking && s.next >= jobs
      case Join => s.parent == Joining && s.wg == 0
      case Return(i, _) => i < |s.workers| && s.workers[i].Running?
      case Store(i) => i < |s.workers| && s.workers[i].Returned?
      case ReleaseToken(i) => i < |s.workers| && s.workers[i].Stored? && s.tokens > 0
      case LeaveGroup(i) => i < |s.workers| && s.workers[i].Released? && s.wg > 0
    }

    ghost function Apply(s: State<R>, step: Step<R>): State<R>
      requires Shaped(s) && Enabled(s, step)
    {
      match step
      case Cancel => s.(cancelled := true)
      case Check =>
        if s.cancelled then
          s.(next := s.next + 1,
             workers := s.workers[s.next := Skipped],
             slots := s.slots[s.next := Some(ctxErr)],
             writes := s.writes[s.next := s.writes[s.next] + 1])
        else
          s.(parent := Acquiring)
      case Acquire => s.(parent := Adding, tokens := s.tokens + 1)
      case AddToGroup => s.(parent := Spawning, wg := s.wg + 1)
      case Spawn =>
        s.(parent := Checking, next := s.next + 1, launched := s.launched + 1,
           workers := s.workers[s.next := Running])
      case LeaveLoop => s.(parent := Joining)
      case Join => s.(parent := Done)
      case Return(i, r) =>
        s.(workers := s.workers[i := Returned(r)], returned := s.returned[i := Some(r)])
      case Store(i) =>
        s.(workers := s.workers[i := Stored],
           slots := s.slots[i := Some(s.workers[i].result)],
           writes := s.writes[i := s.writes[i] + 1])
      case ReleaseToken(i) => s.(workers := s.workers[i := Released], tokens := s.tokens - 1)
      case LeaveGroup(i) => s.(workers := s.workers[i := Finished], wg := s.wg - 1)
    }

    ghost predicate Shaped(s: State<R>) {
      |s.workers| == |s.slots| == |s.writes| == |s.returned| == jobs && s.next <= jobs
    }

    /** Every schedule: any enabled step may be next. */
    ghost predicate IsRun(steps: seq<Step<R>>, states: seq<State<R>>) {
      && |states| == |steps| + 1
      && states[0] == Init()
      && forall i :: 0 <= i < |steps| ==>
           Shaped(states[i]) && Enabled(states[i], steps[i]) && states[i + 1] == Apply(states[i], steps[i])
    }
  }

  predicate HoldsToken<R>(p: Phase<R>) {
    p.Running? || p.Returned? || p.Stored?
  }

  predicate InGroup<R>(p: Phase<R>) {
    HoldsToken(p) || p.Released?
  }

  predicate InJob<R>(p: Phase<R>) {
    p.Running?
  }

  function Count<R>(ws: seq<Phase<R>>, sel: Phase<R> -> bool): nat {
    if ws == [] then 0 else (if sel(ws[0]) then 1 else 0) + Count(ws[1..], sel)
  }

  lemma {:induction false} CountUpdate<R>(ws: seq<Phase<R>>, sel: Phase<R> -> bool, i: nat, p: Phase<R>)
    requires i < |ws|
    ensures Count(ws[i := p], sel) ==
            Count(ws, sel) - (if sel(ws[i]) then 1 else 0) + (if sel(p) then 1 else 0)
  {
    if i == 0 {
      assert ws[0 := p][1..] == ws[1..];
    } else {
      CountUpdate(ws[1..], sel, i - 1, p);
      assert ws[i := p][1..] == ws[1..][i - 1 := p];
    }
  }

  lemma {:induction false} CountNone<R>(ws: seq<Phase<R>>, sel: Phase<R> -> bool)
    requires forall p :: p in ws ==> !sel(p)
    ensures Count(ws, sel) == 0
  {
    if ws != [] {
      CountNone(ws[1..], sel);
    }
  }

  lemma {:induction false} CountMonotone<R>(ws: seq<Phase<R>>, a: Phase<R> -> bool, b: Phase<R> -> bool)
    requires forall p :: a(p) ==> b(p)
    ensures Count(ws, a) <= Count(ws, b)
  {
    if ws != [] {
      CountMonotone(ws[1..], a, b);
    }
  }

  /** Remaining steps of one worker. */
  function Rank<R>(p: Phase<R>): nat {
    match p
    case Waiting => 5
    case Running => 4
    case Returned(_) => 3
    case Stored => 2
    case Released => 1
    case Finished => 0
    case Skipped => 0
  }

  function TotalRank<R>(ws: seq<Phase<R>>): nat {
    if ws == [] then 0 else Rank(ws[0]) + TotalRank(ws[1..])
  }

  lemma {:induction false} TotalRankUpdate<R>(ws: seq<Phase<R>>, i: nat, p: Phase<R>)
    requires i < |ws|
    ensures TotalRank(ws[i := p]) == TotalRank(ws) - Rank(ws[i]) + Rank(p)
  {
    if i == 0 {
      assert ws[0 := p][1..] == ws[1..];
    } else {
      TotalRankUpdate(ws[1..], i - 1, p);
      assert ws[i := p][1..] == ws[1..][i - 1 := p];
    }
  }

  lemma {:induction false} TotalRankWaiting<R>(n: nat)
    ensures TotalRank<R>(seq(n, i => Waiting)) == 5 * n
  {
    if n > 0 {
      TotalRankWaiting<R>(n - 1);
      assert seq<Phase<R>>(n, i => Waiting)[1..] == seq(n - 1, i => Waiting);
    }
  }

  // ---- The invariant of every reachable state ----

  /** Slot `j`, its write count and the recorded outcome agree with worker `j`'s phase. */
  ghost predicate SlotOk<R>(c: Call<R>, s: State<R>, j: nat)
    requires c.Shaped(s) && j < c.jobs
  {
    match s.workers[j]
    case Waiting => s.slots[j] == None && s.writes[j] == 0 && s.returned[j] == None
    case Running => s.slots[j] == None && s.writes[j] == 0 && s.returned[j] == None
    case Returned(r) => s.slots[j] == None && s.writes[j] == 0 && s.returned[j] == Some(r)
    case Skipped => s.slots[j] == Some(c.ctxErr) && s.writes[j] == 1 && s.returned[j] == None
    case _ => s.slots[j] == s.returned[j] && s.slots[j].Some? && s.writes[j] == 1
  }

  /** Launched jobs, then skipped jobs, then jobs not reached. */
  ghost predicate Cut<R>(c: Call<R>, s: State<R>)
    requires c.Shaped(s)
  {
    && s.launched <= s.next
    && (forall j :: 0 <= j < s.launched ==> !s.workers[j].Waiting? && !s.workers[j].Skipped?)
    && (forall j :: s.launched <= j < s.next ==> s.workers[j].Skipped?)
    && (forall j :: s.next <= j < c.jobs ==> s.workers[j].Waiting?)
    && (s.launched < s.next ==> s.cancelled)
  }

  predicate PastCheck(p: ParentPc) {
    p == Acquiring || p == Adding || p == Spawning
  }

  ghost predicate Counters<R>(c: Call<R>, s: State<R>)
    requires c.Shaped(s)
  {
    && s.tokens == Count(s.workers, HoldsToken) + (if s.parent == Adding || s.parent == Spawning then 1 else 0)
    && s.wg == Count(s.workers, InGroup) + (if s.parent == Spawning then 1 else 0)
    && s.tokens <= c.Capacity()
  }

  ghost predicate Inv<R>(c: Call<R>, s: State<R>) {
    && c.Shaped(s)
    && Cut(c, s)
    && Counters(c, s)
    && (forall j :: 0 <= j < c.jobs ==> SlotOk(c, s, j))
    && (PastCheck(s.parent) ==> s.next < c.jobs && s.launched == s.next)
    && (s.parent == Joining || s.parent == Done ==> s.next == c.jobs)
    && (s.parent == Done ==> s.wg == 0)
  }

  lemma InitInv<R>(c: Call<R>)
    ensures Inv(c, c.Init())
  {
    CountNone(c.Init().workers, HoldsToken);
    CountNone(c.Init().workers, InGroup);
  }

  lemma ParentKeepsCounters<R>(c: Call<R>, s: State<R>, step: Step<R>)
    requires Inv(c, s) && c.Enabled(s, step) && !IsWorkerStep(step)
    ensures c.Shaped(c.Apply(s, step)) && Counters(c, c.Apply(s, step))
  {
    if step.Spawn? || step.Check? {
      var p := if step.Spawn? then Running else Skipped;
      CountUpdate(s.workers, HoldsToken, s.next, p);
      CountUpdate(s.workers, InGroup, s.next, p);
    }
  }

  lemma ParentKeepsInv<R>(c: Call<R>, s: State<R>, step: Step<R>)
    requires Inv(c, s) && c.Enabled(s, step)
    requires !IsWorkerStep(step)
    ensures Inv(c, c.Apply(s, step))
  {
    ParentKeepsCounters(c, s, step);
    var s' := c.Apply(s, step);
    forall j | 0 <= j < c.jobs
      ensures SlotOk(c, s', j)
    {
      assert SlotOk(c, s, j);
    }
  }

  predicate IsWorkerStep<R>(step: Step<R>) {
    step.Return? || step.Store? || step.ReleaseToken? || step.LeaveGroup?
  }

  lemma WorkerKeepsCounters<R>(c: Call<R>, s: State<R>, step: Step<R>)
    requires c.Shaped(s) && Counters(c, s) && c.Enabled(s, step) && IsWorkerStep(step)
    ensures c.Shaped(c.Apply(s, step)) && Counters(c, c.Apply(s, step))
  {
    var s' := c.Apply(s, step);
    CountUpdate(s.workers, HoldsToken, step.worker, s'.workers[step.worker]);
    CountUpdate(s.workers, InGroup, step.worker, s'.workers[step.worker]);
  }

  lemma WorkerKeepsInv<R>(c: Call<R>, s: State<R>, step: Step<R>)
    requires Inv(c, s) && c.Enabled(s, step) && IsWorkerStep(step)
    ensures Inv(c, c.Apply(s, step))
  {
    var s' := c.Apply(s, step);
    WorkerKeepsCounters(c, s, step);
    assert step.worker < s.launched;
    forall j | 0 <= j < c.jobs
      ensures SlotOk(c, s', j)
    {
      assert SlotOk(c, s, j);
    }
  }

  lemma StepKeepsInv<R>(c: Call<R>, s: State<R>, step: Step<R>)
    requires Inv(c, s) && c.Enabled(s, step)
    ensures Inv(c, c.Apply(s, step))
  {
    if IsWorkerStep(step) {
      WorkerKeepsInv(c, s, step);
    } else {
      ParentKeepsInv(c, s, step);
    }
  }

  lemma {:induction false} RunInv<R>(c: Call<R>, steps: seq<Step<R>>, states: seq<State<R>>, i: nat)
    requires c.IsRun(steps, states) && i <= |steps|
    ensures Inv(c, states[i])
  {
    if i == 0 {
      InitInv(c);
    } else {
      RunInv(c, steps, states, i - 1);
      StepKeepsInv(c, states[i - 1], steps[i - 1]);
    }
  }

  // ---- Main results ----

  /** On every schedule no more than `Capacity()` jobs run at once, and no slot is ever written twice. */
  lemma BoundedConcurrency<R>(c: Call<R>, steps: seq<Step<R>>, states: seq<State<R>>, i: nat)
    requires c.IsRun(steps, states) && i <= |steps|
    ensures Count(states[i].workers, InJob) <= c.Capacity()
    ensures forall j :: 0 <= j < c.jobs ==> |states[i].writes| == c.jobs && states[i].writes[j] <= 1
  {
    RunInv(c, steps, states, i);
    CountMonotone(states[i].workers, InJob, HoldsToken);
    forall j | 0 <= j < c.jobs
      ensures states[i].writes[j] <= 1
    {
      assert SlotOk(c, states[i], j);
    }
  }

  /** No worker is inside the group when the count says so. */
  lemma {:induction false} NoneCounted<R>(ws: seq<Phase<R>>, sel: Phase<R> -> bool, j: nat)
    requires Count(ws, sel) == 0 && j < |ws|
    ensures !sel(ws[j])
  {
    if j > 0 {
      NoneCounted(ws[1..], sel, j - 1);
    }
  }

  /**
   When the call returns there is a cut `launched`: exactly the jobs below it ran and their slots hold
   their own outcomes; every slot from it on holds the context's error; each slot was written exactly
   once; and without cancellation the cut is at the end.
   */
  lemma ReturnsCleanCut<R>(c: Call<R>, steps: seq<Step<R>>, states: seq<State<R>>, i: nat)
    requires c.IsRun(steps, states) && i <= |steps| && states[i].parent == Done
    ensures c.Shaped(states[i]) && states[i].launched <= c.jobs
    ensures forall j :: 0 <= j < c.jobs ==> states[i].writes[j] == 1
    ensures forall j :: 0 <= j < states[i].launched ==>
              && states[i].workers[j].Finished?
              && states[i].returned[j].Some?
              && states[i].slots[j] == states[i].returned[j]
    ensures forall j :: states[i].launched <= j < c.jobs ==>
              states[i].returned[j] == None && states[i].slots[j] == Some(c.ctxErr)
    ensures !states[i].cancelled ==> states[i].launched == c.jobs
  {
    RunInv(c, steps, states, i);
    var s := states[i];
    forall j | 0 <= j < c.jobs
      ensures s.writes[j] == 1
      ensures s.workers[j].Finished? || s.workers[j].Skipped?
      ensures s.workers[j].Finished? ==> s.slots[j] == s.returned[j] && s.returned[j].Some?
      ensures s.workers[j].Skipped? ==> s.slots[j] == Some(c.ctxErr) && s.returned[j] == None
    {
      NoneCounted(s.workers, InGroup, j);
      assert SlotOk(c, s, j);
    }
  }

  /** At most one job is launched after the context is cancelled, and only if the parent was already
      past its check when that happened. */
  lemma AtMostOneLateLaunch<R>(c: Call<R>, steps: seq<Step<R>>, states: seq<State<R>>, i: nat, j: nat)
    requires c.IsRun(steps, states) && i <= j <= |steps| && states[i].cancelled
    ensures states[i].launched <= states[j].launched <= states[i].launched + 1
    ensures !PastCheck(states[i].parent) ==> states[j].launched == states[i].launched
  {
    LateLaunchBound(c, steps, states, i, j);
  }

  lemma {:induction false} LateLaunchBound<R>(c: Call<R>, steps: seq<Step<R>>, states: seq<State<R>>, i: nat, j: nat)
    requires c.IsRun(steps, states) && i <= j <= |steps| && states[i].cancelled
    ensures states[j].cancelled
    ensures states[i].launched <= states[j].launched
    ensures states[j].launched + (if PastCheck(states[j].parent) then 1 else 0)
            <= states[i].launched + (if PastCheck(states[i].parent) then 1 else 0)
    decreases j
  {
    if i < j {
      LateLaunchBound(c, steps, states, i, j - 1);
      assert states[j] == c.Apply(states[j - 1], steps[j - 1]);
    }
  }

  /** Deterministic jobs: worker `i` can only return `f(i)`. */
  ghost predicate Deterministic<R>(steps: seq<Step<R>>, f: nat -> R) {
    forall k :: 0 <= k < |steps| ==> steps[k].Return? ==> steps[k].result == f(steps[k].worker)
  }

  lemma {:induction false} OutcomesAreTheJobs<R>(
      c: Call<R>, steps: seq<Step<R>>, states: seq<State<R>>, f: nat -> R, i: nat, j: nat)
    requires c.IsRun(steps, states) && Deterministic(steps, f) && i <= |steps| && j < c.jobs
    ensures c.Shaped(states[i]) && (states[i].returned[j].Some? ==> states[i].returned[j] == Some(f(j)))
  {
    RunInv(c, steps, states, i);
    if i > 0 {
      OutcomesAreTheJobs(c, steps, states, f, i - 1, j);
      assert states[i] == c.Apply(states[i - 1], steps[i - 1]);
    }
  }

  /** Without cancellation every schedule ends with the array the sequential map would build. */
  lemma SameAsSequentialMap<R>(c: Call<R>, steps: seq<Step<R>>, states: seq<State<R>>, f: nat -> R, i: nat)
    requires c.IsRun(steps, states) && Deterministic(steps, f) && i <= |steps|
    requires states[i].parent == Done && !states[i].cancelled
    ensures states[i].slots == seq(c.jobs, j requires 0 <= j => Some(f(j)))
  {
    ReturnsCleanCut(c, steps, states, i);
    forall j | 0 <= j < c.jobs
      ensures states[i].slots[j] == Some(f(j))
    {
      OutcomesAreTheJobs(c, steps, states, f, i, j);
    }
  }

  // ---- Counting what the jobs returned ----

  predicate IsReturn<R>(step: Step<R>, p: R -> bool) {
    step.Return? && p(step.result)
  }

  /** How many steps are the return of a job with an outcome that satisfies `p`. */
  function CountReturns<R>(steps: seq<Step<R>>, p: R -> bool): nat {
    if steps == [] then 0
    else CountReturns(steps[..|steps| - 1], p) + if IsReturn(steps[|steps| - 1], p) then 1 else 0
  }

  function CountOutcomes<R>(outcomes: seq<Option<R>>, p: R -> bool): nat {
    if outcomes == [] then 0
    else
      var last := outcomes[|outcomes| - 1];
      CountOutcomes(outcomes[..|outcomes| - 1], p) + if last.Some? && p(last.value) then 1 else 0
  }

  lemma {:induction false} CountOutcomesUpdate<R>(outcomes: seq<Option<R>>, p: R -> bool, i: nat, r: R)
    requires i < |outcomes| && outcomes[i] == None
    ensures CountOutcomes(outcomes[i := Some(r)], p) == CountOutcomes(outcomes, p) + if p(r) then 1 else 0
  {
    var n := |outcomes| - 1;
    if i == n {
      assert outcomes[n := Some(r)][..n] == outcomes[..n];
    } else {
      CountOutcomesUpdate(outcomes[..n], p, i, r);
      assert outcomes[i := Some(r)][..n] == outcomes[..n][i := Some(r)];
    }
  }

  lemma {:induction false} CountNoOutcomes<R>(n: nat, p: R -> bool)
    ensures CountOutcomes(seq(n, i => None), p) == 0
  {
    if n > 0 {
      CountNoOutcomes(n - 1, p);
      assert seq<Option<R>>(n, i => None)[..n - 1] == seq(n - 1, i => None);
    }
  }

  /** On every schedule each job returns at most once, and the returns so far are the recorded outcomes. */
  lemma {:induction false} ReturnsAreOutcomes<R>(
      c: Call<R>, steps: seq<Step<R>>, states: seq<State<R>>, p: R -> bool, i: nat)
    requires c.IsRun(steps, states) && i <= |steps|
    ensures c.Shaped(states[i]) && CountReturns(steps[..i], p) == CountOutcomes(states[i].returned, p)
  {
    if i == 0 {
      CountNoOutcomes(c.jobs, p);
    } else {
      ReturnsAreOutcomes(c, steps, states, p, i - 1);
      assert steps[..i][..i - 1] == steps[..i - 1];
      RunInv(c, steps, states, i - 1);
      OutcomesStep(c, states[i - 1], steps[i - 1], p);
    }
  }

  lemma OutcomesStep<R>(c: Call<R>, s: State<R>, step: Step<R>, p: R -> bool)
    requires Inv(c, s) && c.Enabled(s, step)
    ensures c.Shaped(c.Apply(s, step))
    ensures CountOutcomes(c.Apply(s, step).returned, p)
            == CountOutcomes(s.returned, p) + if IsReturn(step, p) then 1 else 0
  {
    if step.Return? {
      assert SlotOk(c, s, step.worker);
      CountOutcomesUpdate(s.returned, p, step.worker, step.result);
    }
  }

  // ---- Liveness ----

  /** A state that has not returned always has an enabled step that is not a cancellation: the pool
      cannot deadlock as long as a running job returns (`r` is whatever it returns). */
  lemma NeverStuck<R>(c: Call<R>, s: State<R>, r: R) returns (step: Step<R>)
    requires Inv(c, s) && s.parent != Done
    ensures c.Enabled(s, step) && !step.Cancel?
  {
    if i: nat :| i < |s.workers| && InGroup(s.workers[i]) {
      CountUpdate(s.workers, HoldsToken, i, Finished);
      CountUpdate(s.workers, InGroup, i, Finished);
      step := match s.workers[i]
        case Running => Return(i, r)
        case Returned(_) => Store(i)
        case Stored => ReleaseToken(i)
        case _ => LeaveGroup(i);
    } else {
      CountNone(s.workers, HoldsToken);
      CountNone(s.workers, InGroup);
      step := match s.parent
        case Checking => if s.next < c.jobs then Check else LeaveLoop
        case Acquiring => Acquire
        case Adding => AddToGroup
        case Spawning => Spawn
        case _ => Join;
    }
  }

  function ParentRank(p: ParentPc, remaining: nat): int {
    match p
    case Checking => 4 * remaining + 2
    case Acquiring => 4 * remaining + 1
    case Adding => 4 * remaining
    case Spawning => 4 * remaining - 1
    case Joining => 1
    case Done => 0
  }

  function Measure<R>(c: Call<R>, s: State<R>): int
    requires s.next <= c.jobs
  {
    TotalRank(s.workers) + ParentRank(s.parent, c.jobs - s.next) + (if s.cancelled then 0 else 1)
  }

  /** A worker's step moves it to a phase with fewer steps to come. */
  lemma WorkerLowersRank<R>(c: Call<R>, s: State<R>, step: Step<R>)
    requires c.Shaped(s) && c.Enabled(s, step) && IsWorkerStep(step)
    ensures var p := c.Apply(s, step).workers[step.worker];
            c.Apply(s, step).workers == s.workers[step.worker := p] && Rank(p) < Rank(s.workers[step.worker])
  {
  }

  lemma WorkerDecreasesMeasure<R>(c: Call<R>, s: State<R>, step: Step<R>)
    requires c.Shaped(s) && c.Enabled(s, step) && IsWorkerStep(step)
    ensures c.Shaped(c.Apply(s, step)) && Measure(c, c.Apply(s, step)) < Measure(c, s)
  {
    WorkerLowersRank(c, s, step);
    TotalRankUpdate(s.workers, step.worker, c.Apply(s, step).workers[step.worker]);
  }

  /** Spawning a worker, or skipping its job, leaves the parent one job less. */
  lemma NextJobDecreasesMeasure<R>(c: Call<R>, s: State<R>, step: Step<R>)
    requires Inv(c, s) && c.Enabled(s, step) && (step.Spawn? || (step.Check? && s.cancelled))
    ensures c.Shaped(c.Apply(s, step)) && Measure(c, c.Apply(s, step)) < Measure(c, s)
  {
    TotalRankUpdate(s.workers, s.next, if step.Spawn? then Running else Skipped);
  }

  lemma StepDecreasesMeasure<R>(c: Call<R>, s: State<R>, step: Step<R>)
    requires Inv(c, s) && c.Enabled(s, step)
    ensures c.Shaped(c.Apply(s, step))
    ensures Measure(c, c.Apply(s, step)) < Measure(c, s)
  {
    if IsWorkerStep(step) {
      WorkerDecreasesMeasure(c, s, step);
    } else if step.Spawn? || (step.Check? && s.cancelled) {
      NextJobDecreasesMeasure(c, s, step);
    }
  }

  lemma {:induction false} MeasureBoundsSteps<R>(c: Call<R>, steps: seq<Step<R>>, states: seq<State<R>>, i: nat)
    requires c.IsRun(steps, states) && i <= |steps|
    ensures Inv(c, states[i]) && Measure(c, states[i]) >= 0
    ensures i + Measure(c, states[i]) <= 9 * c.jobs + 3
  {
    RunInv(c, steps, states, i);
    if i == 0 {
      TotalRankWaiting<R>(c.jobs);
    } else {
      MeasureBoundsSteps(c, steps, states, i - 1);
      StepDecreasesMeasure(c, states[i - 1], steps[i - 1]);
    }
  }

  /** Every schedule is finite, with a bound linear in the number of jobs; one that cannot be extended
      by a non-cancelling step has returned. */
  lemma AlwaysTerminates<R>(c: Call<R>, steps: seq<Step<R>>, states: seq<State<R>>, r: R)
    requires c.IsRun(steps, states)
    ensures |steps| <= 9 * c.jobs + 3
    ensures (forall step :: c.Enabled(states[|steps|], step) ==> step.Cancel?) ==> states[|steps|].parent == Done
  {
    MeasureBoundsSteps(c, steps, states, |steps|);
    if states[|steps|].parent != Done {
      var step := NeverStuck(c, states[|steps|], r);
    }
  }
}
