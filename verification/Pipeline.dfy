/** The life of jobs, workers and outputs over whole runs of the inference cluster: finished jobs are queued, failed
    workers are gone, and what is stored was computed. */
module Pipeline {
  import opened Api
  import opened CoordinatorState
  import opened CoordinatorInv
  import opened CoordinatorEffects
  import opened InferenceRun

  // ---- Finished jobs ----

  /** An active job with no batch missing waits to be flushed. */
  ghost predicate FinishedQueued(c: State) {
    forall id :: id in c.active && id in c.jobs && AllCompleted(c.jobs[id]) ==> id in c.pending
  }

  /** From c to c' no batch of a job was completed, no active job was added but a fresh one, and the queue did not
      lose a job that is still active. */
  ghost predicate NothingFinished(c: State, c': State) {
    forall id :: id in c'.active && id in c'.jobs && AllCompleted(c'.jobs[id]) ==>
      id in c.active && id in c.jobs && AllCompleted(c.jobs[id]) && (id in c.pending ==> id in c'.pending)
  }

  lemma ReopeningFinishesNothing(c: State, c': State, reopened: set<(string, nat)>)
    requires SameQueues(c, c') && OnlyReopened(c, c', reopened)
    ensures NothingFinished(c, c')
  {
    forall id | id in c'.active && id in c'.jobs && AllCompleted(c'.jobs[id])
      ensures id in c.active && id in c.jobs && AllCompleted(c.jobs[id])
    {
      assert SameJobBut(c.jobs[id], c'.jobs[id], set x | x in reopened && x.0 == id :: x.1);
    }
  }

  lemma BatchRefreshFinishesNothing(c: State)
    ensures NothingFinished(c, RefreshBatches(c))
  {
    BatchRefreshEffect(c);
    hide RefreshBatches;
    var c' := RefreshBatches(c);
    forall id | id in c'.active && id in c'.jobs && AllCompleted(c'.jobs[id])
      ensures AllCompleted(c.jobs[id])
    {
      assert forall b :: 0 <= b < |c.jobs[id].batches| ==> c'.jobs[id].batches[b].status == Completed;
    }
  }

  lemma FlushFinishesNothing(c: State, written: bool, late: set<string>, now: int)
    ensures NothingFinished(c, Flush(c, written, late, now))
  {
    FlushEffect(c, written, late, now);
    hide Flush;
    if c.pending != [] {
      assert forall x :: x in c.pending ==> x == c.pending[0] || x in c.pending[1..];
    }
  }

  /** Steps other than requests finish nothing. */
  lemma CoordinatorFinishesNothing(s: System, step: Step)
    requires Enabled(s, step) && !step.Served? && OnCoordinator(s, step).Some?
    ensures NothingFinished(s.coord, OnCoordinator(s, step).value)
  {
    hide WorkerFailed, Release, RefreshBatches, Flush, AllCompleted;
    var c := s.coord;
    match step
    case NewJob(id, job) => FreshUnfinished(job);
    case Failed(a) =>
      FailureEffect(c, a);
      ReopeningFinishesNothing(c, WorkerFailed(c, a).value, WorkOf(c, a));
    case Released(a) =>
      ReleaseReopens(c, a);
    case RefreshedBatches => BatchRefreshFinishesNothing(c);
    case Flushed(written, late, now) => FlushFinishesNothing(c, written, late, now);
    case _ =>
  }

  lemma FreshUnfinished(job: Job)
    requires FreshJob(job)
    ensures !AllCompleted(job)
  {
    assert job.batches[0].status == Available;
  }

  lemma ReleaseReopens(c: State, a: string)
    requires a in c.workers && c.workers[a].jobId in c.active && Release(c, a).Some?
    ensures NothingFinished(c, Release(c, a).value)
  {
    var reopened: set<(string, nat)> :=
      if c.workers[a].curr.Some? then {(c.workers[a].jobId, c.workers[a].curr.value)} else {};
    assert OnlyReopened(c, Release(c, a).value, reopened);
    ReopeningFinishesNothing(c, Release(c, a).value, reopened);
  }

  lemma StoringQueues(c: State, c': State, id: string, a: string, out: Output, now: int)
    requires id in c.jobs && a in c.workers && Stored(c, c', id, a, out, now) && FinishedQueued(c)
    ensures FinishedQueued(c')
  {
    forall x | x in c'.active && x in c'.jobs && AllCompleted(c'.jobs[x])
      ensures x in c'.pending
    {
      if x != id {
        assert c'.jobs[x] == c.jobs[x];
      }
    }
  }

  lemma HandingOverQueues(c: State, c': State, id: string, a: string, b: Option<nat>, valid: string -> bool)
    requires id in c.jobs && a in c.workers && HandedOver(c, c', id, a, b, valid) && FinishedQueued(c)
    ensures FinishedQueued(c')
  {
    if b.Some? {
      assert c'.jobs[id].batches[b.value].status == InProgress;
    }
  }

  lemma ServingQueues(c: State, req: Request, valid: string -> bool, now: int)
    requires JobsInv(c) && FinishedQueued(c)
    ensures var r := QueryData(c, req, valid, now); r.Some? ==> FinishedQueued(r.value.0)
  {
    QueryEffect(c, req, valid, now);
    var r := QueryData(c, req, valid, now);
    hide JobsInv, QueryData, FinishedQueued, Stored, HandedOver, BatchExists;
    if req.worker in c.workers && req.jobId in c.active && r.Some? {
      var mid: State :| Middle(c, mid, req, now)
        && (if c.workers[req.worker].jobId == req.jobId
            then r.value.1.Granted? && HandedOver(mid, r.value.0, req.jobId, req.worker, r.value.1.batch, valid)
            else r.value == (mid, Refused));
      if req.output.Some? {
        StoringQueues(c, mid, req.jobId, req.worker, req.output.value, now);
      }
      if c.workers[req.worker].jobId == req.jobId {
        HandingOverQueues(mid, r.value.0, req.jobId, req.worker, r.value.1.batch, valid);
      }
    }
  }

  lemma StepQueues(s: System, step: Step)
    requires SystemInv(s) && Enabled(s, step) && Apply(s, step).Some? && FinishedQueued(s.coord)
    ensures FinishedQueued(Apply(s, step).value.coord)
  {
    hide JobsInv, LocalOk, WellTagged, PlansKnown, QueryData, OnCoordinator, OnWorker, Enabled, AllCompleted;
    if step.Served? {
      ServingQueues(s.coord, step.req, step.valid, step.now);
    } else {
      CoordinatorFinishesNothing(s, step);
    }
  }

  /** Over every run: an active job all of whose batches are completed is queued for flushing, whatever else is queued,
      whichever workers failed or moved on, and whatever was reopened on the way. */
  lemma {:induction false} FinishedIsQueued(trace: seq<System>, steps: seq<Step>, i: nat, id: string)
    requires IsRun(trace, steps) && i < |trace|
    ensures FinishedQueued(trace[i].coord)
    ensures id in trace[i].coord.active && id in trace[i].coord.jobs ==>
      (AllCompleted(trace[i].coord.jobs[id]) ==> id in trace[i].coord.pending)
  {
    if i > 0 {
      var t := i - 1;
      FinishedIsQueued(trace, steps, t, id);
      RunInv(trace, steps, t);
      assert Apply(trace[t], steps[t]) == Some(trace[t + 1]);
      hide FinishedQueued, SystemInv, Apply, Enabled;
      StepQueues(trace[t], steps[t]);
    }
  }

  // ---- Registered workers ----

  ghost predicate Joins(step: Step, a: string) {
    step.Joined? && step.a == a
  }

  ghost predicate Fails(step: Step, a: string) {
    step.Failed? && step.a == a
  }

  lemma StepRegisters(s: System, step: Step, a: string)
    requires SystemInv(s) && Enabled(s, step) && Apply(s, step).Some?
    ensures a in Apply(s, step).value.coord.workers <==> Joins(step, a) || (a in s.coord.workers && !Fails(step, a))
  {
    if step.Served? {
      ServedWorkers(s.coord, step.req, step.valid, step.now);
      hide QueryData;
    } else {
      CoordinatorRegisters(s, step, a);
      hide OnCoordinator, OnWorker, Enabled;
    }
  }

  lemma ServedWorkers(c: State, req: Request, valid: string -> bool, now: int)
    ensures var r := QueryData(c, req, valid, now); r.Some? ==> r.value.0.workers.Keys == c.workers.Keys
  {
    hide CompletedCount, Validated;
  }

  lemma CoordinatorRegisters(s: System, step: Step, a: string)
    requires Enabled(s, step) && !step.Served? && OnCoordinator(s, step).Some?
    ensures a in OnCoordinator(s, step).value.workers <==> Joins(step, a) || (a in s.coord.workers && !Fails(step, a))
  {
    hide RefreshJob, FreshJob, Current, WorkerFailed;
    if step.Failed? {
      FailureEffect(s.coord, step.a);
    }
  }

  /** Over every run an address is registered exactly when it has joined and not failed since. */
  lemma {:induction false} RegisteredExactly(trace: seq<System>, steps: seq<Step>, i: nat, a: string)
    requires IsRun(trace, steps) && i < |trace|
    ensures a in trace[i].coord.workers
       <==> exists j :: 0 <= j < i && Joins(steps[j], a) && forall t :: j < t < i ==> !Fails(steps[t], a)
  {
    if i > 0 {
      var t := i - 1;
      RegisteredExactly(trace, steps, t, a);
      RunInv(trace, steps, t);
      assert Apply(trace[t], steps[t]) == Some(trace[t + 1]);
      hide SystemInv, Apply, Enabled, Joins, Fails;
      StepRegisters(trace[t], steps[t], a);
    }
  }

  /** A worker that failed is planned for nothing until its address joins again. */
  lemma FailedIsGone(trace: seq<System>, steps: seq<Step>, j: nat, i: nat, a: string, id: string)
    requires IsRun(trace, steps) && j < i < |trace| && Fails(steps[j], a)
    requires forall t :: j < t < i ==> !Joins(steps[t], a)
    ensures a !in trace[i].coord.workers && !Enabled(trace[i], Planned(a, id))
  {
    RegisteredExactly(trace, steps, i, a);
  }

  // ---- Where outputs come from ----

  ghost predicate StoredAt(c: State, id: string, b: nat, o: Output) {
    BatchExists(c, id, b) && c.jobs[id].batches[b].output == Some(o)
  }

  /** The output is with a worker, in a request, or stored. */
  ghost predicate Around(s: System, o: Output) {
    || (exists a :: a in s.locals && s.locals[a].output == Some(o))
    || (exists req :: req in s.sent && req.output == Some(o))
    || (exists id, b :: StoredAt(s.coord, id, b, o))
  }

  /** The step in which a worker finishes computing exactly this output. */
  ghost predicate Computes(s: System, step: Step, o: Output) {
    && step.FinishBatch? && step.results == o.results
    && step.a in s.locals && s.locals[step.a].phase == Computing(o.job, o.batch)
  }

  /** Stored outputs were stored before. */
  ghost predicate NothingStored(c: State, c': State) {
    forall id, b, o :: StoredAt(c', id, b, o) ==> StoredAt(c, id, b, o)
  }

  lemma CoordinatorStoresNothing(s: System, step: Step)
    requires Enabled(s, step) && !step.Served? && OnCoordinator(s, step).Some?
    ensures NothingStored(s.coord, OnCoordinator(s, step).value)
  {
    var c, c' := s.coord, OnCoordinator(s, step).value;
    if step.Failed? {
      FailureEffect(c, step.a);
      ReopeningStoresNothing(c, c', WorkOf(c, step.a));
    } else if step.Released? {
      var w := c.workers[step.a];
      ReopeningStoresNothing(c, c', if w.curr.Some? then {(w.jobId, w.curr.value)} else {});
    } else if step.RefreshedBatches? {
      BatchRefreshEffect(c);
      hide RefreshBatches;
    } else if step.NewJob? {
      assert forall b :: 0 <= b < |step.job.batches| ==> step.job.batches[b].output == None;
    } else {
      hide RefreshJob, FreshJob, Current;
      assert c'.jobs == c.jobs;
    }
  }

  lemma ReopeningStoresNothing(c: State, c': State, reopened: set<(string, nat)>)
    requires OnlyReopened(c, c', reopened)
    ensures NothingStored(c, c')
  {
    forall id, b, o | StoredAt(c', id, b, o)
      ensures StoredAt(c, id, b, o)
    {
      assert SameJobBut(c.jobs[id], c'.jobs[id], set x | x in reopened && x.0 == id :: x.1);
    }
  }

  /** Handing out a batch stores nothing and loses nothing. */
  lemma HandingOverOutputs(c: State, c': State, id: string, a: string, n: Option<nat>, valid: string -> bool,
                           x: string, b: nat, o: Output)
    requires id in c.jobs && a in c.workers && HandedOver(c, c', id, a, n, valid)
    ensures StoredAt(c', x, b, o) <==> StoredAt(c, x, b, o)
  {
    hide Validated;
  }

  lemma MiddleOutputs(c: State, mid: State, req: Request, now: int, x: string, b: nat, o: Output)
    requires req.jobId in c.jobs && req.worker in c.workers && Middle(c, mid, req, now)
    ensures StoredAt(mid, x, b, o) ==> StoredAt(c, x, b, o) || req.output == Some(o)
    ensures req.output == Some(o) ==> StoredAt(mid, req.jobId, o.batch, o)
  {
  }

  lemma ServingStores(c: State, req: Request, valid: string -> bool, now: int, id: string, b: nat, o: Output)
    requires JobsInv(c) && QueryData(c, req, valid, now).Some?
    ensures var c' := QueryData(c, req, valid, now).value.0;
            && (StoredAt(c', id, b, o) ==> StoredAt(c, id, b, o) || req.output == Some(o))
            && (req.output == Some(o) && req.worker in c.workers && req.jobId in c.active ==>
                  StoredAt(c', req.jobId, o.batch, o))
  {
    QueryEffect(c, req, valid, now);
    var r := QueryData(c, req, valid, now);
    hide JobsInv, QueryData, Middle, HandedOver, StoredAt;
    if req.worker in c.workers && req.jobId in c.active {
      var mid: State :| Middle(c, mid, req, now)
        && (if c.workers[req.worker].jobId == req.jobId
            then r.value.1.Granted? && HandedOver(mid, r.value.0, req.jobId, req.worker, r.value.1.batch, valid)
            else r.value == (mid, Refused));
      MiddleOutputs(c, mid, req, now, id, b, o);
      if c.workers[req.worker].jobId == req.jobId {
        MiddleKeeps(c, mid, req, now);
        HandingOverOutputs(mid, r.value.0, req.jobId, req.worker, r.value.1.batch, valid, id, b, o);
        HandingOverOutputs(mid, r.value.0, req.jobId, req.worker, r.value.1.batch, valid, req.jobId, o.batch, o);
      }
    }
  }

  lemma MiddleKeeps(c: State, mid: State, req: Request, now: int)
    requires req.jobId in c.jobs && req.worker in c.workers && Middle(c, mid, req, now)
    ensures req.jobId in mid.jobs && req.worker in mid.workers
  {
  }

  lemma StepOutputs(s: System, step: Step, o: Output)
    requires SystemInv(s) && Enabled(s, step) && Apply(s, step).Some? && Around(Apply(s, step).value, o)
    ensures Around(s, o) || Computes(s, step, o)
  {
    var s' := Apply(s, step).value;
    if a :| a in s'.locals && s'.locals[a].output == Some(o) {
      LocalOutputs(s, step, a, o);
    } else if req :| req in s'.sent && req.output == Some(o) {
      SentOutputs(s, step, req, o);
    } else {
      var id, b: nat :| StoredAt(s'.coord, id, b, o);
      hide SystemInv, Around, Enabled, OnCoordinator, OnWorker, QueryData, JobsInv;
      StoredOutputs(s, step, id, b, o);
    }
  }

  lemma LocalOutputs(s: System, step: Step, a: string, o: Output)
    requires Enabled(s, step) && Apply(s, step).Some?
    requires a in Apply(s, step).value.locals && Apply(s, step).value.locals[a].output == Some(o)
    ensures (a in s.locals && s.locals[a].output == Some(o)) || Computes(s, step, o)
  {
    hide OnCoordinator, QueryData, SentAfter, PlannedAfter, Registered;
  }

  lemma SentOutputs(s: System, step: Step, req: Request, o: Output)
    requires Enabled(s, step) && Apply(s, step).Some? && req in Apply(s, step).value.sent && req.output == Some(o)
    ensures Around(s, o)
  {
    hide OnCoordinator, QueryData, LocalsAfter, PlannedAfter, Registered;
  }

  lemma StoredOutputs(s: System, step: Step, id: string, b: nat, o: Output)
    requires SystemInv(s) && Enabled(s, step) && Apply(s, step).Some?
    requires StoredAt(Apply(s, step).value.coord, id, b, o)
    ensures Around(s, o)
  {
    assert JobsInv(s.coord);
    hide SystemInv, OnWorker, OnCoordinator, QueryData, JobsInv, Enabled;
    if step.Served? {
      assert step.req in s.sent by {
        ServedSent(s, step);
      }
      ServingStores(s.coord, step.req, step.valid, step.now, id, b, o);
    } else {
      CoordinatorStoresNothing(s, step);
    }
  }

  lemma {:induction false} OutputsComputed(trace: seq<System>, steps: seq<Step>, i: nat, o: Output)
    requires IsRun(trace, steps) && i < |trace| && Around(trace[i], o)
    ensures exists j :: 0 <= j < i && Computes(trace[j], steps[j], o)
  {
    if i > 0 {
      var t := i - 1;
      RunInv(trace, steps, t);
      assert Apply(trace[t], steps[t]) == Some(trace[t + 1]);
      hide SystemInv, Apply, Enabled, Around, Computes;
      StepOutputs(trace[t], steps[t], o);
      if !Computes(trace[t], steps[t], o) {
        OutputsComputed(trace, steps, t, o);
      }
    }
  }

  /** Over every run: what is stored for a batch is, results and all, what some worker finished computing for exactly
      that batch of that job. */
  lemma StoredWasComputed(trace: seq<System>, steps: seq<Step>, i: nat, id: string, b: nat, o: Output)
    requires IsRun(trace, steps) && i < |trace| && StoredAt(trace[i].coord, id, b, o)
    ensures exists j :: 0 <= j < i && Computes(trace[j], steps[j], Output(id, b, o.results))
  {
    RunInv(trace, steps, i);
    assert JobOk(trace[i].coord.jobs[id], id);
    OutputsComputed(trace, steps, i, o);
  }

  /** And nothing that was computed is thrown away: once served, the output of a registered worker is stored for its
      batch of the active job, also when the worker has been given another job since. */
  lemma ServedIsStored(trace: seq<System>, steps: seq<Step>, i: nat, o: Output)
    requires IsRun(trace, steps) && i < |steps| && steps[i].Served? && steps[i].req.output == Some(o)
    requires steps[i].req.worker in trace[i].coord.workers && steps[i].req.jobId in trace[i].coord.active
    ensures StoredAt(trace[i + 1].coord, steps[i].req.jobId, o.batch, o)
  {
    RunInv(trace, steps, i);
    assert Apply(trace[i], steps[i]) == Some(trace[i + 1]);
    ServingStores(trace[i].coord, steps[i].req, steps[i].valid, steps[i].now, o.job, o.batch, o);
  }

  // ---- Outputs on their way ----

  /** The worker starts anew, or its output is replaced or given up. */
  ghost predicate Discards(step: Step, a: string) {
    (step.Boot? || step.FinishBatch? || step.ClearOutput? || step.EndJobClear?) && step.a == a
  }

  lemma StepCarries(s: System, step: Step, a: string, o: Output)
    requires Enabled(s, step) && Apply(s, step).Some? && a in s.locals && s.locals[a].output == Some(o)
    requires !Discards(step, a)
    ensures var s' := Apply(s, step).value; a in s'.locals && s'.locals[a].output == Some(o)
  {
    hide OnCoordinator, QueryData, SentAfter, PlannedAfter, Registered;
  }

  /** A worker keeps an output, whatever happens to its requests, until it has another one, is given another job, or is
      told that the job has ended; and every request it sends meanwhile carries it. */
  lemma {:induction false} OutputCarried(trace: seq<System>, steps: seq<Step>, j: nat, i: nat, a: string, o: Output)
    requires IsRun(trace, steps) && j <= i < |trace| && a in trace[j].locals && trace[j].locals[a].output == Some(o)
    requires forall t :: j <= t < i ==> !Discards(steps[t], a)
    ensures a in trace[i].locals && trace[i].locals[a].output == Some(o)
    ensures i < |steps| && steps[i] == Send(a) ==>
      var p := trace[i].locals[a].phase; p.JobRead? && Request(p.job, a, Some(o)) in trace[i + 1].sent
  {
    if j < i {
      var t := i - 1;
      OutputCarried(trace, steps, j, t, a, o);
      assert Enabled(trace[t], steps[t]) && Apply(trace[t], steps[t]) == Some(trace[t + 1]);
      hide Discards, Apply, Enabled;
      StepCarries(trace[t], steps[t], a, o);
    }
    if i < |steps| && steps[i] == Send(a) {
      assert Apply(trace[i], steps[i]) == Some(trace[i + 1]);
      SendCarries(trace[i], a, o);
    }
  }

  lemma SendCarries(s: System, a: string, o: Output)
    requires Enabled(s, Send(a)) && Apply(s, Send(a)).Some? && a in s.locals && s.locals[a].output == Some(o)
    ensures var p := s.locals[a].phase; p.JobRead? && Request(p.job, a, Some(o)) in Apply(s, Send(a)).value.sent
  {
  }

  /** The results a worker computes are its output, for the batch and the job it was computing. */
  lemma ResultsBecomeOutput(trace: seq<System>, steps: seq<Step>, i: nat)
    requires IsRun(trace, steps) && i < |steps| && steps[i].FinishBatch?
    ensures var a := steps[i].a;
            && a in trace[i].locals && trace[i].locals[a].phase.Computing? && a in trace[i + 1].locals
            && trace[i + 1].locals[a].output
               == Some(Output(trace[i].locals[a].phase.job, trace[i].locals[a].phase.batch, steps[i].results))
  {
    assert Enabled(trace[i], steps[i]) && Apply(trace[i], steps[i]) == Some(trace[i + 1]);
    hide QueryData;
  }

  /** What a worker has for its output. */
  ghost function OutputOf(s: System, a: string): Option<Output> {
    if a in s.locals then s.locals[a].output else None
  }

  lemma StepOutput(s: System, step: Step, a: string)
    requires Enabled(s, step) && Apply(s, step).Some?
    ensures OutputOf(Apply(s, step).value, a)
         == if !Discards(step, a) then OutputOf(s, a)
            else if step.FinishBatch? then Some(Output(s.locals[a].phase.job, s.locals[a].phase.batch, step.results))
            else None
  {
    hide OnCoordinator, QueryData, SentAfter, PlannedAfter, Registered;
  }

  /** The worker finishes computing this output. */
  ghost predicate Finishes(s: System, step: Step, a: string, o: Output) {
    Computes(s, step, o) && step.a == a
  }

  lemma StepDiscards(s: System, step: Step, a: string, o: Output)
    requires Enabled(s, step) && Apply(s, step).Some?
    ensures OutputOf(Apply(s, step).value, a) == Some(o)
       <==> Finishes(s, step, a, o) || (OutputOf(s, a) == Some(o) && !Discards(step, a))
  {
    StepOutput(s, step, a);
    hide Apply, OutputOf;
  }

  ghost predicate FinishedLast(trace: seq<System>, steps: seq<Step>, i: nat, a: string, o: Output)
    requires i <= |steps| < |trace|
  {
    exists j :: 0 <= j < i && Finishes(trace[j], steps[j], a, o) && forall t :: j < t < i ==> !Discards(steps[t], a)
  }

  lemma FinishedLastStep(trace: seq<System>, steps: seq<Step>, i: nat, a: string, o: Output)
    requires i < |steps| < |trace|
    ensures FinishedLast(trace, steps, i + 1, a, o)
       <==> Finishes(trace[i], steps[i], a, o) || (FinishedLast(trace, steps, i, a, o) && !Discards(steps[i], a))
  {
    hide Finishes, Discards;
  }

  /** Over every run: what a worker has for its output is exactly what it finished computing last, unless its job was
      ended, it was given another one, or it started anew since. */
  lemma {:induction false} OutputExactly(trace: seq<System>, steps: seq<Step>, i: nat, a: string, o: Output)
    requires IsRun(trace, steps) && i < |trace|
    ensures OutputOf(trace[i], a) == Some(o) <==> FinishedLast(trace, steps, i, a, o)
  {
    if i > 0 {
      var t := i - 1;
      assert Enabled(trace[t], steps[t]) && Apply(trace[t], steps[t]) == Some(trace[t + 1]);
      hide Discards, Apply, Enabled, Finishes, OutputOf, FinishedLast;
      OutputExactly(trace, steps, t, a, o);
      StepDiscards(trace[t], steps[t], a, o);
      FinishedLastStep(trace, steps, t, a, o);
    }
  }

  /** After a flush, or the reset that comes later, the workers of the flushed job are idle with nothing in their
      hands. */
  lemma FlushFrees(trace: seq<System>, steps: seq<Step>, i: nat, a: string)
    requires IsRun(trace, steps) && i < |steps| && a in trace[i].coord.workers
    requires || (steps[i].Flushed? && trace[i].coord.pending != [] && a !in steps[i].late
                 && trace[i].coord.workers[a].jobId == trace[i].coord.pending[0])
             || (steps[i].LateReset? && steps[i].a == a)
    ensures a in trace[i + 1].coord.workers
    ensures trace[i + 1].coord.workers[a].Idle() && trace[i + 1].coord.workers[a].curr == None
  {
    assert Enabled(trace[i], steps[i]) && Apply(trace[i], steps[i]) == Some(trace[i + 1]);
    if steps[i].Flushed? {
      FlushEffect(trace[i].coord, steps[i].written, steps[i].late, steps[i].now);
      hide Flush;
    }
  }

  // ---- Assignments and registrations ----

  lemma StepRegistrations(s: System, step: Step, a: string)
    requires Enabled(s, step) && Apply(s, step).Some?
    ensures Registration(Apply(s, step).value, a) == Registration(s, a) + if Joins(step, a) then 1 else 0
  {
    hide OnCoordinator, QueryData, SentAfter, PlannedAfter, LocalsAfter;
  }

  /** Between two states the registrations of an address count its joins. */
  lemma {:induction false} RegistrationsGrow(trace: seq<System>, steps: seq<Step>, p: nat, i: nat, a: string)
    requires IsRun(trace, steps) && p <= i < |trace|
    ensures Registration(trace[p], a) <= Registration(trace[i], a)
    ensures Registration(trace[p], a) == Registration(trace[i], a) <==> forall t :: p <= t < i ==> !Joins(steps[t], a)
  {
    if p < i {
      var t := i - 1;
      RegistrationsGrow(trace, steps, p, t, a);
      assert Enabled(trace[t], steps[t]) && Apply(trace[t], steps[t]) == Some(trace[t + 1]);
      hide Joins, Apply, Enabled, Registration;
      StepRegistrations(trace[t], steps[t], a);
    }
  }

  lemma {:induction false} StaysRegistered(trace: seq<System>, steps: seq<Step>, p: nat, i: nat, a: string)
    requires IsRun(trace, steps) && p <= i < |trace| && a in trace[p].coord.workers
    requires forall t :: p <= t < i ==> !Joins(steps[t], a)
    ensures a in trace[i].coord.workers <==> forall t :: p <= t < i ==> !Fails(steps[t], a)
  {
    if p < i {
      var t := i - 1;
      StaysRegistered(trace, steps, p, t, a);
      RunInv(trace, steps, t);
      assert Apply(trace[t], steps[t]) == Some(trace[t + 1]);
      hide Joins, Fails, Apply, Enabled, SystemInv;
      StepRegisters(trace[t], steps[t], a);
    }
  }

  /** An assignment planned at one step and committed at another is written into the coordinator's records exactly when
      its worker has neither failed nor joined anew in between; otherwise nothing changes. */
  lemma CommitExactly(trace: seq<System>, steps: seq<Step>, p: nat, i: nat, x: Assignment)
    requires IsRun(trace, steps) && p < i < |steps| && steps[p] == Planned(x.worker, x.job)
    requires x.registration == Registration(trace[p], x.worker) && steps[i].Committed? && steps[i].x == x
    ensures if forall t :: p < t < i ==> !Joins(steps[t], x.worker) && !Fails(steps[t], x.worker)
            then x.worker in trace[i + 1].coord.workers && trace[i + 1].coord.workers[x.worker].jobId == x.job
            else trace[i + 1].coord == trace[i].coord
  {
    var a := x.worker;
    assert Enabled(trace[p], steps[p]) && !Joins(steps[p], a) && !Fails(steps[p], a);
    RegistrationsGrow(trace, steps, p, i, a);
    if forall t :: p <= t < i ==> !Joins(steps[t], a) {
      StaysRegistered(trace, steps, p, i, a);
    }
    assert Apply(trace[i], steps[i]) == Some(trace[i + 1]);
  }
}
