/** Whole runs of the inference cluster: the coordinator's steps interleaved with the workers' query
    loops (idunno/worker.go, idunno/worker_service.go).

    A worker's query and assignment handlers exclude each other; the handler that ends a job takes no
    lock, so its two writes may fall between any two actions of the others. Requests may be served
    late, more than once, or after the worker has given up on them.

    A schedule plans assignments for workers that are idle then. Each goes on by itself: the request is built from
    the job, read without the lock, and sent; the worker accepts it; and the coordinator writes the job into the
    worker's record. Schedules overlap, and by then the worker may be registered anew, with a record of its own. */
module InferenceRun {
  import opened Api
  import opened CoordinatorState
  import opened CoordinatorInv

  /** Where the worker's locked section is. */
  datatype Phase =
    | Free
    | Checked                          // a job id was seen
    | JobRead(job: string)             // the request's job id is fixed, its output not yet
    | Waiting(job: string)             // the request is out
    | Computing(job: string, batch: nat)
    | Assigning(x: Assignment)         // the new job id is written, the old output not yet cleared

  datatype Local = Local(jobId: string, output: Option<Output>, phase: Phase)

  /** What an assignment waits for: the read of the job's model, of its batch size, the worker, the commit. */
  datatype Stage = ModelNext | SizeNext | Requested | Accepted

  /** The assignment of a job to a worker's record, the registration-th at its address. */
  datatype Assignment = Assignment(worker: string, registration: nat, job: string, stage: Stage)

  datatype System = System(
    coord: State,
    locals: map<string, Local>,
    sent: set<Request>,
    registrations: map<string, nat>,  // how often an address was registered
    planned: multiset<Assignment>)

  datatype Step =
    // coordinator
    | NewJob(id: string, job: Job)
    | Joined(a: string, now: int)
    | Failed(a: string)
    | LateReset(a: string, now: int)
    | RefreshedWorkers(now: int)
    | RefreshedBatches
    | Released(a: string)
    | Planned(a: string, id: string)
    | ReadInfo(x: Assignment)
    | Committed(x: Assignment, now: int)
    | Flushed(written: bool, late: set<string>, now: int)
    | Served(req: Request, delivered: bool, valid: string -> bool, now: int)
    // worker
    | Boot(a: string)
    | CheckJob(a: string)
    | ReadJob(a: string)
    | Send(a: string)
    | GiveUp(a: string)
    | FinishBatch(a: string, results: seq<string>)
    | WriteJob(x: Assignment)
    | ClearOutput(a: string)
    | EndJobClear(a: string)
    | EndJobForget(a: string)

  ghost predicate At(s: System, a: string, p: Phase) {
    a in s.locals && s.locals[a].phase == p
  }

  /** A step of one worker on its own. */
  predicate OfWorker(step: Step) {
    || step.Boot? || step.CheckJob? || step.ReadJob? || step.Send? || step.GiveUp? || step.FinishBatch?
    || step.WriteJob? || step.ClearOutput? || step.EndJobClear? || step.EndJobForget?
  }

  function Actor(step: Step): string
    requires OfWorker(step)
  {
    if step.WriteJob? then step.x.worker else step.a
  }

  /** What the step needs of its worker. */
  ghost predicate Ready(l: Local, step: Step)
    requires OfWorker(step)
  {
    match step
    case CheckJob(_) => l.phase == Free && l.jobId != NO_JOB
    case ReadJob(_) => l.phase == Checked
    case Send(_) => l.phase.JobRead?
    case GiveUp(_) => l.phase.Waiting? || l.phase.Computing?
    case FinishBatch(_, _) => l.phase.Computing?
    case WriteJob(_) => l.phase == Free
    case ClearOutput(_) => l.phase.Assigning?
    case _ => true
  }

  ghost function NextLocal(l: Local, step: Step): Local
    requires OfWorker(step) && Ready(l, step)
  {
    match step
    case Boot(_) => Local(NO_JOB, None, Free)
    case CheckJob(_) => l.(phase := Checked)
    case ReadJob(_) => l.(phase := JobRead(l.jobId))
    case Send(_) => l.(phase := Waiting(l.phase.job))
    case GiveUp(_) => l.(phase := Free)
    case FinishBatch(_, results) => l.(output := Some(Output(l.phase.job, l.phase.batch, results)), phase := Free)
    case WriteJob(x) => l.(jobId := x.job, phase := Assigning(x))
    case ClearOutput(_) => l.(output := None, phase := Free)
    case EndJobClear(_) => l.(output := None)
    case EndJobForget(_) => l.(jobId := NO_JOB)
  }

  ghost predicate Enabled(s: System, step: Step) {
    match step
    case NewJob(id, job) => id !in s.coord.jobs && id != NO_JOB && FreshJob(job)
    case Released(a) => a in s.coord.workers && s.coord.workers[a].jobId in s.coord.active
    case Planned(a, id) => a in s.coord.workers && s.coord.workers[a].Idle() && id in s.coord.active
    case ReadInfo(x) => x in s.planned && (x.stage == ModelNext || x.stage == SizeNext)
    case Committed(x, _) => x in s.planned && x.stage == Accepted
    case Served(req, _, _, _) => req in s.sent
    case Boot(_) => true
    case WriteJob(x) =>
      x.worker in s.locals && Ready(s.locals[x.worker], step) && x in s.planned && x.stage == Requested
    case _ => OfWorker(step) ==> Actor(step) in s.locals && Ready(s.locals[Actor(step)], step)
  }

  ghost function Registration(s: System, a: string): nat {
    if a in s.registrations then s.registrations[a] else 0
  }

  /** The assignment's record is the one registered now. */
  ghost predicate Current(s: System, x: Assignment) {
    x.worker in s.coord.workers && Registration(s, x.worker) == x.registration
  }

  ghost function Advance(s: System, x: Assignment, stage: Stage): System {
    s.(planned := s.planned - multiset{x} + multiset{x.(stage := stage)})
  }

  /** The worker's side of a served request. */
  ghost function Delivered(s: System, req: Request, response: Response): System {
    if response.Granted? && response.batch.Some? && At(s, req.worker, Waiting(req.jobId))
    then
      s.(locals := s.locals[req.worker := s.locals[req.worker].(phase := Computing(req.jobId, response.batch.value))])
    else s
  }

  ghost function Serve(s: System, req: Request, delivered: bool, valid: string -> bool, now: int): Option<System> {
    var r := QueryData(s.coord, req, valid, now);
    if r.None? then None
    else
      var s' := s.(coord := r.value.0);
      Some(if delivered then Delivered(s', req, r.value.1) else s')
  }

  ghost function OnCoordinator(s: System, step: Step): Option<State>
    requires Enabled(s, step)
  {
    match step
    case NewJob(id, job) => Some(AddJob(s.coord, id, job))
    case Joined(a, now) => Some(WorkerJoined(s.coord, a, now))
    case Failed(a) => WorkerFailed(s.coord, a)
    case LateReset(a, now) => Some(ResetWorker(s.coord, a, now))
    case RefreshedWorkers(now) => Some(RefreshWorkers(s.coord, now))
    case RefreshedBatches => Some(RefreshBatches(s.coord))
    case Released(a) => Release(s.coord, a)
    case ReadInfo(x) => if x.job in s.coord.active then Some(s.coord) else None
    case Committed(x, now) => Some(if Current(s, x) then Commit(s.coord, x.worker, x.job, now) else s.coord)
    case Flushed(written, late, now) => Some(Flush(s.coord, written, late, now))
    case _ => Some(s.coord)
  }

  ghost function LocalsAfter(s: System, step: Step): map<string, Local>
    requires Enabled(s, step)
  {
    if !OfWorker(step) then s.locals
    else if step.Boot? then s.locals[step.a := Local(NO_JOB, None, Free)]
    else s.locals[Actor(step) := NextLocal(s.locals[Actor(step)], step)]
  }

  ghost function SentAfter(s: System, step: Step): set<Request>
    requires Enabled(s, step)
  {
    match step
    case Send(a) => s.sent + {Request(s.locals[a].phase.job, a, s.locals[a].output)}
    case _ => s.sent
  }

  ghost function PlannedAfter(s: System, step: Step): multiset<Assignment>
    requires Enabled(s, step)
  {
    match step
    case Planned(a, id) => s.planned + multiset{Assignment(a, Registration(s, a), id, ModelNext)}
    case ReadInfo(x) => Advance(s, x, if x.stage == ModelNext then SizeNext else Requested).planned
    case WriteJob(x) => s.planned - multiset{x}
    case ClearOutput(a) => s.planned + multiset{s.locals[a].phase.x.(stage := Accepted)}
    case Committed(x, _) => s.planned - multiset{x}
    case _ => s.planned
  }

  ghost function Registered(s: System, step: Step): map<string, nat> {
    match step
    case Joined(a, _) => s.registrations[a := Registration(s, a) + 1]
    case _ => s.registrations
  }

  /** What a step does besides the coordinator's state. */
  ghost function OnWorker(s: System, step: Step): System
    requires Enabled(s, step)
  {
    System(s.coord, LocalsAfter(s, step), SentAfter(s, step), Registered(s, step), PlannedAfter(s, step))
  }

  /** The next state; absent when the coordinator crashes. */
  ghost function Apply(s: System, step: Step): Option<System>
    requires Enabled(s, step)
  {
    if step.Served? then Serve(s, step.req, step.delivered, step.valid, step.now)
    else
      var c := OnCoordinator(s, step);
      if c.None? then None else Some(OnWorker(s, step).(coord := c.value))
  }

  // ---- Invariant ----

  /** A worker's output belongs to its job, or the worker has no job; while a request is being built the
      same holds of the job id already read. */
  ghost predicate LocalOk(c: State, l: Local) {
    && (l.output.Some? ==> BatchExists(c, l.output.value.job, l.output.value.batch))
    && (l.output.Some? && !l.phase.Assigning? ==> l.jobId == NO_JOB || l.output.value.job == l.jobId)
    && (l.phase.JobRead? && l.output.Some? && l.phase.job != NO_JOB ==> l.output.value.job == l.phase.job)
    && (l.phase.JobRead? || l.phase.Waiting? || l.phase.Computing? ==> l.jobId == NO_JOB || l.jobId == l.phase.job)
    && (l.phase.Computing? ==> BatchExists(c, l.phase.job, l.phase.batch))
    && (l.phase.Assigning? ==> l.phase.x.job in c.jobs)
  }

  /** Jobs are in order, and so is everything workers and messages say about them. */
  ghost predicate SystemInv(s: System) {
    && JobsInv(s.coord)
    && (forall a :: a in s.locals ==> LocalOk(s.coord, s.locals[a]))
    && (forall req :: req in s.sent ==> WellTagged(s.coord, req))
    && PlansKnown(s)
  }

  ghost predicate PlansKnown(s: System) {
    forall x :: x in s.planned ==> x.job in s.coord.jobs
  }

  lemma CoordinatorStepKeeps(s: System, step: Step)
    requires JobsInv(s.coord) && Enabled(s, step) && OnCoordinator(s, step).Some?
    ensures var r := OnCoordinator(s, step); JobsInv(r.value) && OutputsGrow(s.coord, r.value)
  {
    hide JobsInv, OutputsGrow, Flush, RefreshBatches, WorkerFailed, Release, RefreshWorkers, Current, FreshJob;
    match step
    case Failed(a) => LossKeepsJobs(s.coord, a);
    case RefreshedBatches => RefreshBatchesKeepsJobs(s.coord);
    case Released(a) => LossKeepsJobs(s.coord, a);
    case Flushed(written, late, now) => FlushKeepsJobs(s.coord, written, late, now);
    case ReadInfo(_) => GrowReflexive(s.coord);
    case _ => SimpleStepKeeps(s, step);
  }

  /** Steps that add a job or touch only workers. */
  lemma SimpleStepKeeps(s: System, step: Step)
    requires JobsInv(s.coord) && Enabled(s, step)
    requires !step.Failed? && !step.RefreshedBatches? && !step.Released? && !step.Flushed? && !step.ReadInfo?
    ensures var r := OnCoordinator(s, step); r.Some? && JobsInv(r.value) && OutputsGrow(s.coord, r.value)
  {
    GrowReflexive(s.coord);
  }

  lemma WorkerStepKeeps(s: System, step: Step)
    requires SystemInv(s) && Enabled(s, step)
    ensures SystemInv(OnWorker(s, step)) && OnWorker(s, step).coord == s.coord
  {
    hide JobsInv, PlansKnown, LocalOk, WellTagged, Enabled, LocalsAfter, SentAfter;
    PlansStayKnown(s, step);
    forall a | a in LocalsAfter(s, step)
      ensures LocalOk(s.coord, LocalsAfter(s, step)[a])
    {
      LocalStays(s, step, a);
    }
    forall req | req in SentAfter(s, step)
      ensures WellTagged(s.coord, req)
    {
      SentStays(s, step, req);
    }
  }

  lemma LocalStays(s: System, step: Step, a: string)
    requires SystemInv(s) && Enabled(s, step) && a in LocalsAfter(s, step)
    ensures LocalOk(s.coord, LocalsAfter(s, step)[a])
  {
    assert a in s.locals ==> LocalOk(s.coord, s.locals[a]);
    assert step.WriteJob? ==> step.x.job in s.coord.jobs;
    hide SystemInv, LocalOk, NextLocal;
    if OfWorker(step) && a == Actor(step) && !step.Boot? {
      NextLocalOk(s.coord, s.locals[a], step);
    } else if step.Boot? && step.a == a {
      NewLocalOk(s.coord);
    }
  }

  lemma NewLocalOk(c: State)
    ensures LocalOk(c, Local(NO_JOB, None, Free))
  {
  }

  lemma NextLocalOk(c: State, l: Local, step: Step)
    requires OfWorker(step) && Ready(l, step) && LocalOk(c, l) && (step.WriteJob? ==> step.x.job in c.jobs)
    ensures LocalOk(c, NextLocal(l, step))
  {
    hide BatchExists;
  }

  lemma SentStays(s: System, step: Step, req: Request)
    requires SystemInv(s) && Enabled(s, step) && req in SentAfter(s, step)
    ensures WellTagged(s.coord, req)
  {
    hide JobsInv, PlansKnown, BatchExists, NextLocal;
    if step.Send? {
      assert LocalOk(s.coord, s.locals[step.a]);
    }
  }

  lemma PlansStayKnown(s: System, step: Step)
    requires SystemInv(s) && Enabled(s, step)
    ensures PlansKnown(OnWorker(s, step))
  {
    assert forall id :: id in s.coord.active ==> id in s.coord.jobs;
    hide JobsInv, WellTagged, BatchExists;
    forall x | x in OnWorker(s, step).planned
      ensures x.job in s.coord.jobs
    {
      if step.ClearOutput? {
        assert LocalOk(s.coord, s.locals[step.a]);
      }
    }
  }

  /** What workers and messages say about batches stays true as jobs grow. */
  lemma GrowthKeepsMessages(s: System, c: State)
    requires SystemInv(s) && JobsInv(c) && OutputsGrow(s.coord, c)
    ensures SystemInv(s.(coord := c))
  {
    hide JobsInv;
    forall job, b | BatchExists(s.coord, job, b)
      ensures BatchExists(c, job, b)
    {
      assert JobGrows(s.coord.jobs[job], c.jobs[job]);
    }
    assert forall req :: req in s.sent ==> WellTagged(s.coord, req);
  }

  lemma ServeKeeps(s: System, req: Request, delivered: bool, valid: string -> bool, now: int)
    requires SystemInv(s) && req in s.sent
    ensures var r := Serve(s, req, delivered, valid, now);
            r.Some? && SystemInv(r.value) && OutputsGrow(s.coord, r.value.coord)
  {
    hide JobsInv, QueryData, HolderInv;
    assert WellTagged(s.coord, req);
    QueryDataKeeps(s.coord, req, valid, now);
    var (c, response) := QueryData(s.coord, req, valid, now).value;
    GrowthKeepsMessages(s, c);
    hide WellTagged, PlansKnown;
    if response.Granted? && response.batch.Some? {
      assert JobGrows(s.coord.jobs[req.jobId], c.jobs[req.jobId]);
    }
  }

  /** Every step that does not crash keeps the invariant and every stored output; serving a request never
      crashes. */
  lemma StepKeeps(s: System, step: Step)
    requires SystemInv(s) && Enabled(s, step)
    ensures var r := Apply(s, step);
            && (step.Served? ==> r.Some?)
            && (r.Some? ==> SystemInv(r.value) && OutputsGrow(s.coord, r.value.coord))
  {
    hide OnWorker, OnCoordinator, Serve, JobsInv, LocalOk, WellTagged, JobGrows;
    if step.Served? {
      ServeKeeps(s, step.req, step.delivered, step.valid, step.now);
    } else if OnCoordinator(s, step).Some? {
      CoordinatorStepKeeps(s, step);
      WorkerStepKeeps(s, step);
      GrowthKeepsMessages(OnWorker(s, step), OnCoordinator(s, step).value);
    }
  }

  // ---- Holders ----

  /** An assignment is committed only while its worker is still idle, and a request built only while its job is still
      active. */
  ghost predicate Guarded(s: System, step: Step) {
    && (step.Committed? && Current(s, step.x) ==> s.coord.workers[step.x.worker].Idle())
    && (step.ReadInfo? ==> step.x.job in s.coord.active)
  }

  /** A guarded step never crashes and keeps batches in at most one pair of hands. */
  lemma GuardedStepKeeps(s: System, step: Step)
    requires SystemInv(s) && HolderInv(s.coord) && Enabled(s, step) && Guarded(s, step)
    ensures var r := Apply(s, step); r.Some? && HolderInv(r.value.coord)
  {
    hide JobsInv, HolderInv, JobGrows, OutputsGrow, LocalOk, WellTagged, OnWorker, QueryData;
    match step
    case NewJob(id, job) => AddJobKeeps(s.coord, id, job);
    case Joined(a, now) => JoinKeeps(s.coord, a, now);
    case Failed(a) => FailKeeps(s.coord, a);
    case LateReset(a, now) => ResetKeeps(s.coord, a, now);
    case RefreshedWorkers(now) => RefreshWorkersKeeps(s.coord, now);
    case RefreshedBatches => RefreshBatchesKeeps(s.coord);
    case Released(a) => ReleaseKeeps(s.coord, a);
    case Committed(x, now) =>
      if Current(s, x) {
        GuardedCommitKeeps(s.coord, x.worker, x.job, now);
      }
    case Flushed(written, late, now) => FlushKeeps(s.coord, written, late, now);
    case Served(req, _, valid, now) => QueryDataKeeps(s.coord, req, valid, now);
    case _ =>
  }

  // ---- Runs ----

  ghost predicate Init(s: System) {
    && s.coord.jobs == map[] && s.coord.active == {} && s.coord.pending == [] && s.coord.completed == {}
    && s.coord.workers == map[] && s.locals == map[] && s.sent == {}
    && s.registrations == map[] && s.planned == multiset{}
  }

  ghost predicate IsRun(trace: seq<System>, steps: seq<Step>) {
    && |trace| == |steps| + 1
    && Init(trace[0])
    && forall i :: 0 <= i < |steps| ==>
         Enabled(trace[i], steps[i]) && Apply(trace[i], steps[i]) == Some(trace[i + 1])
  }

  lemma {:induction false} RunInv(trace: seq<System>, steps: seq<Step>, i: nat)
    requires IsRun(trace, steps) && i < |trace|
    ensures SystemInv(trace[i])
  {
    if i > 0 {
      RunInv(trace, steps, i - 1);
      StepKeeps(trace[i - 1], steps[i - 1]);
    }
  }

  /** In every reachable state, under every interleaving, serving any request that was ever sent has an
      outcome: no output is ever stored outside the batches of the job it was computed from. An output names an
      existing batch of the job it was computed from, and it travels under that job's id exactly when the request
      names a job at all. */
  lemma ServingNeverCrashes(trace: seq<System>, steps: seq<Step>, i: nat, step: Step)
    requires IsRun(trace, steps) && i < |trace| && Enabled(trace[i], step) && step.Served?
    ensures Apply(trace[i], step).Some?
    ensures step.req.output.Some? ==>
      var out := step.req.output.value;
      BatchExists(trace[i].coord, out.job, out.batch) && (out.job == step.req.jobId <==> step.req.jobId != NO_JOB)
  {
    RunInv(trace, steps, i);
    StepKeeps(trace[i], step);
    assert WellTagged(trace[i].coord, step.req);
  }

  ghost predicate GuardedRun(trace: seq<System>, steps: seq<Step>) {
    IsRun(trace, steps) && forall i :: 0 <= i < |steps| ==> Guarded(trace[i], steps[i])
  }

  /** When assignments check that the worker is still idle, in every reachable state no batch is in two hands,
      no available batch is in any, no idle worker holds one ... */
  lemma {:induction false} HoldersApart(trace: seq<System>, steps: seq<Step>, i: nat)
    requires GuardedRun(trace, steps) && i < |trace|
    ensures HolderInv(trace[i].coord)
  {
    if i > 0 {
      HoldersApart(trace, steps, i - 1);
      RunInv(trace, steps, i - 1);
      GuardedStepKeeps(trace[i - 1], steps[i - 1]);
    }
  }

  /** ... and no step crashes. */
  lemma NeverCrashes(trace: seq<System>, steps: seq<Step>, i: nat, step: Step)
    requires GuardedRun(trace, steps) && i < |trace| && Enabled(trace[i], step) && Guarded(trace[i], step)
    ensures Apply(trace[i], step).Some?
  {
    RunInv(trace, steps, i);
    HoldersApart(trace, steps, i);
    GuardedStepKeeps(trace[i], step);
  }

  // ---- When the coordinator crashes ----

  /** The step loses a worker of an active job whose batch number is none of that job's. */
  ghost predicate LosesMisfit(s: System, step: Step) {
    && (step.Failed? || step.Released?) && step.a in s.coord.workers
    && s.coord.workers[step.a].jobId in s.coord.active && !Fits(s.coord, s.coord.workers[step.a])
  }

  /** The step builds a request for a job that has been flushed. */
  ghost predicate ReadsFlushed(s: System, step: Step) {
    step.ReadInfo? && step.x.job !in s.coord.active
  }

  lemma ActiveKnown(c: State)
    requires JobsInv(c)
    ensures NO_JOB !in c.active && forall id :: id in c.active ==> id in c.jobs
  {
  }

  lemma StepCrashesIff(s: System, step: Step)
    requires SystemInv(s) && Enabled(s, step)
    ensures Apply(s, step) == None <==> LosesMisfit(s, step) || ReadsFlushed(s, step)
  {
    hide LocalOk, WellTagged, JobsInv, Serve, OnWorker, RefreshBatches, RefreshWorkers, Flush, Current, FreshJob;
    StepKeeps(s, step);
    ActiveKnown(s.coord);
  }

  /** In every run a step crashes the coordinator exactly when it fails or releases a worker that holds a batch
      number beyond the batches of its active job, or builds a request for a job that is no longer active. */
  lemma CrashesExactly(trace: seq<System>, steps: seq<Step>, i: nat, step: Step)
    requires IsRun(trace, steps) && i < |trace| && Enabled(trace[i], step)
    ensures Apply(trace[i], step) == None <==> LosesMisfit(trace[i], step) || ReadsFlushed(trace[i], step)
  {
    RunInv(trace, steps, i);
    StepCrashesIff(trace[i], step);
  }

  /** The batch number in the worker's hands is one of the job it is assigned to. */
  ghost predicate Fitting(s: System, step: Step) {
    step.Committed? && Current(s, step.x) ==> Fits(s.coord, s.coord.workers[step.x.worker].(jobId := step.x.job))
  }

  lemma ServeFits(s: State, req: Request, valid: string -> bool, now: int)
    requires JobsInv(s) && HeldExists(s) && WellTagged(s, req)
    ensures var r := QueryData(s, req, valid, now); r.Some? && HeldExists(r.value.0)
  {
    if req.worker in s.workers && req.jobId in s.active {
      assert req.jobId in s.jobs;
      AfterOutputKeeps(s, req, now);
      hide JobsInv, HeldExists, AfterOutput, Answer, OutputsGrow;
      OutputFits(s, req, now);
      AnswerFits(AfterOutput(s, req, now).value, req, valid);
    }
  }

  lemma OutputFits(s: State, req: Request, now: int)
    requires HeldExists(s) && req.worker in s.workers && req.jobId in s.active && req.jobId in s.jobs
    ensures AfterOutput(s, req, now).Some? ==> HeldExists(AfterOutput(s, req, now).value)
  {
    hide CompletedCount;
    var r := AfterOutput(s, req, now);
    if r.Some? {
      forall a | a in r.value.workers
        ensures Fits(r.value, r.value.workers[a])
      {
        assert a in s.workers && Fits(s, s.workers[a]);
        assert r.value.workers[a].curr.Some? ==> r.value.workers[a] == s.workers[a];
      }
    }
  }

  lemma AnswerFits(s: State, req: Request, valid: string -> bool)
    requires HeldExists(s) && req.worker in s.workers && req.jobId in s.jobs
    ensures HeldExists(Answer(s, req, valid).0)
  {
    var s' := Answer(s, req, valid).0;
    forall a | a in s'.workers
      ensures Fits(s', s'.workers[a])
    {
      assert a in s.workers && Fits(s, s.workers[a]);
    }
  }

  lemma ServedSent(s: System, step: Step)
    requires Enabled(s, step) && step.Served?
    ensures step.req in s.sent
  {
  }

  lemma FittingStepKeeps(s: System, step: Step)
    requires SystemInv(s) && HeldExists(s.coord) && Enabled(s, step) && Fitting(s, step) && !ReadsFlushed(s, step)
    ensures var r := Apply(s, step); r.Some? && HeldExists(r.value.coord)
  {
    hide LocalOk, WellTagged, JobsInv, QueryData, OnWorker, OnCoordinator, Enabled;
    StepKeeps(s, step);
    StepCrashesIff(s, step);
    var c, c' := s.coord, Apply(s, step).value.coord;
    if step.Served? {
      assert step.req in s.sent by {
        ServedSent(s, step);
      }
      ServeFits(c, step.req, step.valid, step.now);
    } else {
      forall a | a in c'.workers
        ensures Fits(c', c'.workers[a])
      {
        CoordinatorStepFits(s, step, a);
      }
    }
  }

  lemma CoordinatorStepFits(s: System, step: Step, a: string)
    requires HeldExists(s.coord) && Enabled(s, step) && Fitting(s, step) && !step.Served?
    requires OnCoordinator(s, step).Some? && OutputsGrow(s.coord, OnCoordinator(s, step).value)
    requires a in OnCoordinator(s, step).value.workers
    ensures var c' := OnCoordinator(s, step).value; Fits(c', c'.workers[a])
  {
    var c, c' := s.coord, OnCoordinator(s, step).value;
    WorkerAfter(s, step, a);
    hide OnCoordinator, Enabled;
    var w := c'.workers[a];
    if w.curr.Some? {
      assert Fits(c, c.workers[a]) && Fits(c, w);
      assert JobGrows(c.jobs[w.jobId], c'.jobs[w.jobId]);
    }
  }

  /** A worker after a step has nothing in its hands, or is as it was but for an assignment. */
  lemma WorkerAfter(s: System, step: Step, a: string)
    requires Enabled(s, step) && OnCoordinator(s, step).Some? && a in OnCoordinator(s, step).value.workers
    ensures var w := OnCoordinator(s, step).value.workers[a];
            || w.curr.None?
            || (a in s.coord.workers && w == s.coord.workers[a])
            || (a in s.coord.workers && step.Committed? && step.x.worker == a && Current(s, step.x)
                && w == s.coord.workers[a].(jobId := step.x.job, lastQueryTime := step.now))
  {
    hide RefreshJob;
  }

  /** As long as every assignment fits, nobody holds a foreign batch number, whatever else is wrong with the holders. */
  lemma {:induction false} FittingRunsHold(trace: seq<System>, steps: seq<Step>, i: nat)
    requires IsRun(trace, steps) && i < |trace| && forall j :: 0 <= j < i ==> Fitting(trace[j], steps[j])
    ensures HeldExists(trace[i].coord)
  {
    if i > 0 {
      FittingRunsHold(trace, steps, i - 1);
      RunInv(trace, steps, i - 1);
      assert Apply(trace[i - 1], steps[i - 1]) == Some(trace[i - 1 + 1]);
      StepCrashesIff(trace[i - 1], steps[i - 1]);
      FittingStepKeeps(trace[i - 1], steps[i - 1]);
    }
  }

  /** The step takes the job out of the active ones. */
  ghost predicate Flushes(s: System, step: Step, id: string) {
    step.Flushed? && s.coord.pending != [] && s.coord.pending[0] == id
  }

  lemma StepActive(s: System, step: Step, id: string)
    requires Enabled(s, step) && Apply(s, step).Some?
    ensures var c, c' := s.coord, Apply(s, step).value.coord;
            && (id in c'.jobs && id !in c.jobs ==> step.NewJob? && id in c'.active)
            && (id in c.jobs ==> (id in c'.active <==> id in c.active && !Flushes(s, step, id)))
  {
    if step.Served? {
      ServedActive(s.coord, step.req, step.valid, step.now);
      hide QueryData;
    } else {
      CoordinatorActive(s, step, id);
      hide OnCoordinator, OnWorker, Enabled;
    }
  }

  lemma CoordinatorActive(s: System, step: Step, id: string)
    requires Enabled(s, step) && !step.Served? && OnCoordinator(s, step).Some?
    ensures var c, c' := s.coord, OnCoordinator(s, step).value;
            && (id in c'.jobs && id !in c.jobs ==> step.NewJob? && id in c'.active)
            && (id in c.jobs ==> (id in c'.active <==> id in c.active && !Flushes(s, step, id)))
  {
    hide RefreshJob, FreshJob, Current;
  }

  lemma ServedActive(c: State, req: Request, valid: string -> bool, now: int)
    ensures var r := QueryData(c, req, valid, now);
            r.Some? ==> r.value.0.active == c.active && r.value.0.jobs.Keys == c.jobs.Keys
  {
    hide CompletedCount, Validated;
  }

  /** In every run a known job is inactive exactly when it has been flushed before. */
  lemma {:induction false} InactiveIffFlushed(trace: seq<System>, steps: seq<Step>, i: nat, id: string)
    requires IsRun(trace, steps) && i < |trace| && id in trace[i].coord.jobs
    ensures id !in trace[i].coord.active <==> exists j :: 0 <= j < i && Flushes(trace[j], steps[j], id)
  {
    if i > 0 {
      var t := i - 1;
      RunInv(trace, steps, t);
      assert Apply(trace[t], steps[t]) == Some(trace[t + 1]);
      StepActive(trace[t], steps[t], id);
      hide Apply, Enabled, SystemInv;
      if id in trace[t].coord.jobs {
        InactiveIffFlushed(trace, steps, t, id);
      } else {
        NotFlushedYet(trace, steps, t, id);
      }
    }
  }

  lemma NotFlushedYet(trace: seq<System>, steps: seq<Step>, i: nat, id: string)
    requires IsRun(trace, steps) && i < |trace| && id !in trace[i].coord.jobs
    ensures forall j :: 0 <= j < i ==> !Flushes(trace[j], steps[j], id)
  {
    forall j | 0 <= j < i
      ensures !Flushes(trace[j], steps[j], id)
    {
      RunInv(trace, steps, j);
      OutputsNeverLost(trace, steps, j, i);
    }
  }

  /** Every crash has one of two causes: an earlier assignment did not fit, or the job of the request being built was
      flushed earlier, after it had been planned. */
  lemma CrashCauses(trace: seq<System>, steps: seq<Step>, i: nat, step: Step)
    requires IsRun(trace, steps) && i < |trace| && Enabled(trace[i], step) && Apply(trace[i], step) == None
    ensures || (exists j :: 0 <= j < i && !Fitting(trace[j], steps[j]))
            || (step.ReadInfo? && exists j :: 0 <= j < i && Flushes(trace[j], steps[j], step.x.job))
  {
    CrashesExactly(trace, steps, i, step);
    if ReadsFlushed(trace[i], step) {
      RunInv(trace, steps, i);
      InactiveIffFlushed(trace, steps, i, step.x.job);
    } else if forall j :: 0 <= j < i ==> Fitting(trace[j], steps[j]) {
      FittingRunsHold(trace, steps, i);
    }
  }

  /** The first cause: an assignment to an active job that does not fit is one failure away from a crash. */
  lemma MisfitThenFailure(trace: seq<System>, steps: seq<Step>, i: nat)
    requires IsRun(trace, steps) && i < |steps| && steps[i].Committed?
    requires Current(trace[i], steps[i].x) && steps[i].x.job in trace[i].coord.active
    ensures Apply(trace[i + 1], Failed(steps[i].x.worker)) == None <==> !Fitting(trace[i], steps[i])
  {
    var x := steps[i].x;
    RunInv(trace, steps, i + 1);
    StepCrashesIff(trace[i + 1], Failed(x.worker));
    assert trace[i + 1].coord == Commit(trace[i].coord, x.worker, x.job, steps[i].now);
  }

  /** The second: a request still to be built crashes the coordinator exactly when its job has been flushed. */
  lemma FlushThenBuild(trace: seq<System>, steps: seq<Step>, i: nat, x: Assignment)
    requires IsRun(trace, steps) && i < |trace| && Enabled(trace[i], ReadInfo(x))
    ensures Apply(trace[i], ReadInfo(x)) == None <==> exists j :: 0 <= j < i && Flushes(trace[j], steps[j], x.job)
  {
    RunInv(trace, steps, i);
    InactiveIffFlushed(trace, steps, i, x.job);
  }

  /** Over any stretch of a run, stored outputs stay and jobs keep their batches. */
  lemma {:induction false} OutputsNeverLost(trace: seq<System>, steps: seq<Step>, i: nat, j: nat)
    requires IsRun(trace, steps) && i <= j < |trace|
    ensures OutputsGrow(trace[i].coord, trace[j].coord)
    decreases j - i
  {
    if i == j {
      GrowReflexive(trace[i].coord);
    } else {
      RunInv(trace, steps, i);
      StepKeeps(trace[i], steps[i]);
      OutputsNeverLost(trace, steps, i + 1, j);
      GrowTransitive(trace[i].coord, trace[i + 1].coord, trace[j].coord);
    }
  }

  /** Every batch of the job has an output computed from that batch. */
  ghost predicate Answered(j: Job, id: string) {
    forall b :: 0 <= b < |j.batches| ==>
      && j.batches[b].output.Some?
      && j.batches[b].output.value.job == id && j.batches[b].output.value.batch == b
  }

  /** In every reachable state each job is in exactly the stages it may be in, and a job that is queued or done
      has an output for each of its batches, computed from that batch. */
  lemma ReachableState(trace: seq<System>, steps: seq<Step>, i: nat)
    requires IsRun(trace, steps) && i < |trace|
    ensures Lifecycle(trace[i].coord)
    ensures forall id :: id in trace[i].coord.pending || id in trace[i].coord.completed ==>
      id in trace[i].coord.jobs && Answered(trace[i].coord.jobs[id], id)
  {
    RunInv(trace, steps, i);
    var c := trace[i].coord;
    forall id | id in c.pending || id in c.completed
      ensures id in c.jobs && Answered(c.jobs[id], id)
    {
      assert AllOutputs(c.jobs[id]) && JobOk(c.jobs[id], id);
    }
  }

  /** An added job never leaves the pipeline. */
  lemma JobsStay(trace: seq<System>, steps: seq<Step>, i: nat, j: nat, id: string)
    requires IsRun(trace, steps) && i <= j < |trace| && id in trace[i].coord.jobs
    ensures var c := trace[j].coord; id in c.active || id in c.pending || id in c.completed
  {
    OutputsNeverLost(trace, steps, i, j);
    RunInv(trace, steps, j);
  }
}
