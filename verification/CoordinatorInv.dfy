/** What every step of the coordinator keeps. */
module CoordinatorInv {
  import opened Api
  import opened CoordinatorState

  // ---- Jobs ----

  ghost predicate JobOk(j: Job, id: string) {
    && j.totalQueries == |j.batches| && j.batches != [] && 0 <= j.completedQueries <= j.totalQueries
    && (forall i :: 0 <= i < |j.batches| && j.batches[i].status == Completed ==> j.batches[i].output.Some?)
    && (forall i :: 0 <= i < |j.batches| && j.batches[i].output.Some? ==>
          j.batches[i].output.value.job == id && j.batches[i].output.value.batch == i)
  }

  ghost predicate AllOutputs(j: Job) {
    forall i :: 0 <= i < |j.batches| ==> j.batches[i].output.Some?
  }

  /** Every job is somewhere in the pipeline, queued at most once, and done jobs are nowhere else. */
  ghost predicate Lifecycle(s: State) {
    && NO_JOB !in s.jobs
    && (forall id :: id in s.jobs <==> id in s.active || id in s.pending || id in s.completed)
    && NoDuplicates(s.pending)
    && s.completed !! s.active
    && (forall id :: id in s.pending ==> id !in s.completed)
  }

  ghost predicate JobsInv(s: State) {
    && Lifecycle(s)
    && (forall id :: id in s.jobs ==> JobOk(s.jobs[id], id))
    && (forall id :: id in s.pending || id in s.completed ==> AllOutputs(s.jobs[id]))
  }

  // ---- Holders ----

  ghost predicate BatchExists(s: State, job: string, b: nat) {
    job in s.jobs && b < |s.jobs[job].batches|
  }

  /** The batch in a worker's hands, if any, is one of its job. */
  ghost predicate Fits(s: State, w: Worker) {
    w.curr.Some? ==> BatchExists(s, w.jobId, w.curr.value)
  }

  /** A held batch exists. */
  ghost predicate HeldExists(s: State) {
    forall a :: a in s.workers ==> Fits(s, s.workers[a])
  }

  predicate SameBatch(w: Worker, w': Worker) {
    w.curr.Some? && w.jobId == w'.jobId && w.curr == w'.curr
  }

  /** At most one registered worker holds a batch, an available batch is held by nobody, and an idle
      worker holds nothing. */
  ghost predicate HolderInv(s: State) {
    && HeldExists(s)
    && (forall a, a' :: a in s.workers && a' in s.workers && a != a' ==> !SameBatch(s.workers[a], s.workers[a']))
    && (forall a :: a in s.workers && s.workers[a].curr.Some? ==>
          s.jobs[s.workers[a].jobId].batches[s.workers[a].curr.value].status != Available)
    && (forall a :: a in s.workers && s.workers[a].Idle() ==> s.workers[a].curr.None?)
  }

  ghost predicate JobGrows(j: Job, j': Job) {
    && |j'.batches| == |j.batches|
    && forall i :: 0 <= i < |j.batches| && j.batches[i].output.Some? ==> j'.batches[i].output.Some?
  }

  /** Jobs keep their batches and outputs; nothing stored is ever taken back. */
  ghost predicate OutputsGrow(s: State, s': State) {
    forall id :: id in s.jobs ==> id in s'.jobs && JobGrows(s.jobs[id], s'.jobs[id])
  }

  ghost predicate Inv(s: State) {
    JobsInv(s) && HolderInv(s)
  }

  // ---- Step by step ----

  ghost predicate Fresh(bs: seq<Batch>) {
    bs != [] && forall i :: 0 <= i < |bs| ==> bs[i].status == Available && bs[i].output.None?
  }

  /** A new job: fresh batches, as many as it announces queries. */
  ghost predicate FreshJob(j: Job) {
    Fresh(j.batches) && j.totalQueries == |j.batches| && j.completedQueries == 0
  }

  lemma AddJobKeeps(s: State, id: string, job: Job)
    requires Inv(s) && id !in s.jobs && id != NO_JOB && FreshJob(job)
    ensures Inv(AddJob(s, id, job)) && OutputsGrow(s, AddJob(s, id, job))
  {
  }

  lemma JoinKeeps(s: State, a: string, now: int)
    requires Inv(s)
    ensures Inv(WorkerJoined(s, a, now)) && OutputsGrow(s, WorkerJoined(s, a, now))
  {
  }

  lemma ResetKeeps(s: State, a: string, now: int)
    requires Inv(s)
    ensures Inv(ResetWorker(s, a, now)) && OutputsGrow(s, ResetWorker(s, a, now))
  {
  }

  lemma RefreshWorkersKeeps(s: State, now: int)
    requires Inv(s)
    ensures Inv(RefreshWorkers(s, now)) && OutputsGrow(s, RefreshWorkers(s, now))
  {
  }

  ghost function WithJob(s: State, id: string, j: Job): State {
    s.(jobs := s.jobs[id := j])
  }

  /** Replacing a job by one that keeps its outputs. */
  lemma JobChangeKeepsJobs(s: State, id: string, j: Job)
    requires JobsInv(s) && id in s.jobs && JobOk(j, id) && JobGrows(s.jobs[id], j)
    ensures JobsInv(WithJob(s, id, j)) && OutputsGrow(s, WithJob(s, id, j))
  {
  }

  /** ... and leaves every held batch unavailable. */
  lemma JobChangeKeepsHolders(s: State, id: string, j: Job)
    requires HolderInv(s) && id in s.jobs && |j.batches| == |s.jobs[id].batches|
    requires forall i :: 0 <= i < |j.batches| && j.batches[i].status == Available ==> !Held(s, id, i)
    ensures HolderInv(WithJob(s, id, j))
  {
    forall a | a in s.workers && s.workers[a].curr.Some? && s.workers[a].jobId == id
      ensures j.batches[s.workers[a].curr.value].status != Available
    {
      assert HeldBy(s, a, id, s.workers[a].curr.value);
    }
  }

  lemma AvailableUnheld(s: State, id: string, i: nat)
    requires HolderInv(s) && id in s.jobs && i < |s.jobs[id].batches| && s.jobs[id].batches[i].status == Available
    ensures !Held(s, id, i)
  {
  }

  lemma ReopenKeepsJobs(s: State, id: string, b: nat)
    requires JobsInv(s) && id in s.jobs && b < |s.jobs[id].batches|
    ensures JobsInv(Reopen(s, id, b)) && OutputsGrow(s, Reopen(s, id, b))
  {
    JobChangeKeepsJobs(s, id, s.jobs[id].(batches := SetStatus(s.jobs[id].batches, b, Available)));
  }

  /** A failure or release that finds the batch it reopens keeps the jobs in order. */
  lemma LossKeepsJobs(s: State, a: string)
    requires JobsInv(s)
    ensures WorkerFailed(s, a).Some? ==> JobsInv(WorkerFailed(s, a).value) && OutputsGrow(s, WorkerFailed(s, a).value)
    ensures a in s.workers && Release(s, a).Some? ==>
      JobsInv(Release(s, a).value) && OutputsGrow(s, Release(s, a).value)
  {
    if a in s.workers && s.workers[a].curr.Some? {
      var id, b := s.workers[a].jobId, s.workers[a].curr.value;
      if id in s.jobs && b < |s.jobs[id].batches| {
        ReopenKeepsJobs(s, id, b);
      }
    }
  }

  /** Reopening a batch nobody holds. */
  lemma ReopenKeeps(s: State, id: string, b: nat)
    requires Inv(s) && id in s.jobs && b < |s.jobs[id].batches| && !Held(s, id, b)
    ensures Inv(Reopen(s, id, b)) && OutputsGrow(s, Reopen(s, id, b))
  {
    var j := s.jobs[id].(batches := SetStatus(s.jobs[id].batches, b, Available));
    ReopenKeepsJobs(s, id, b);
    hide JobsInv, OutputsGrow;
    forall i | 0 <= i < |j.batches| && j.batches[i].status == Available
      ensures !Held(s, id, i)
    {
      if i != b { AvailableUnheld(s, id, i); }
    }
    JobChangeKeepsHolders(s, id, j);
  }

  lemma FailKeeps(s: State, a: string)
    requires Inv(s)
    ensures var r := WorkerFailed(s, a); r.Some? && Inv(r.value) && OutputsGrow(s, r.value)
  {
    if a in s.workers {
      var w := s.workers[a];
      var s' := s.(workers := s.workers - {a});
      assert Inv(s');
      if w.curr.Some? && w.jobId in s.active {
        assert !Held(s', w.jobId, w.curr.value);
        ReopenKeeps(s', w.jobId, w.curr.value);
      }
    }
  }

  lemma ReleaseKeeps(s: State, a: string)
    requires Inv(s) && a in s.workers
    ensures var r := Release(s, a); r.Some? && Inv(r.value) && OutputsGrow(s, r.value)
  {
    var w := s.workers[a];
    var s' := SetWorker(s, a, Freed(w));
    assert Inv(s');
    if w.curr.Some? {
      assert !Held(s', w.jobId, w.curr.value);
      ReopenKeeps(s', w.jobId, w.curr.value);
    }
  }

  lemma RefreshJobOk(s: State, id: string)
    requires id in s.jobs && JobOk(s.jobs[id], id)
    ensures JobOk(RefreshJob(s, id), id) && JobGrows(s.jobs[id], RefreshJob(s, id))
    ensures AllOutputs(s.jobs[id]) ==> AllOutputs(RefreshJob(s, id))
  {
  }

  lemma RefreshBatchesKeepsJobs(s: State)
    requires JobsInv(s)
    ensures JobsInv(RefreshBatches(s)) && OutputsGrow(s, RefreshBatches(s))
  {
    var s' := RefreshBatches(s);
    forall id | id in s.jobs
      ensures JobOk(s'.jobs[id], id) && JobGrows(s.jobs[id], s'.jobs[id])
      ensures AllOutputs(s.jobs[id]) ==> AllOutputs(s'.jobs[id])
    {
      RefreshJobOk(s, id);
    }
    assert s'.jobs.Keys == s.jobs.Keys;
  }

  lemma RefreshBatchesKeeps(s: State)
    requires Inv(s)
    ensures Inv(RefreshBatches(s)) && OutputsGrow(s, RefreshBatches(s))
  {
    hide JobsInv, HolderInv, OutputsGrow;
    RefreshBatchesKeepsJobs(s);
    RefreshBatchesHolders(s);
  }

  /** A held batch is not reopened. */
  lemma RefreshKeepsHeld(s: State, a: string)
    requires HolderInv(s) && a in s.workers && s.workers[a].curr.Some?
    ensures var id, b := s.workers[a].jobId, s.workers[a].curr.value;
            && b < |s.jobs[id].batches| && |RefreshJob(s, id).batches| == |s.jobs[id].batches|
            && RefreshJob(s, id).batches[b] == s.jobs[id].batches[b]
  {
    assert HeldBy(s, a, s.workers[a].jobId, s.workers[a].curr.value);
  }

  lemma RefreshBatchesHolders(s: State)
    requires HolderInv(s)
    ensures HolderInv(RefreshBatches(s))
  {
    hide RefreshJob;
    var s' := RefreshBatches(s);
    forall a | a in s.workers && s.workers[a].curr.Some?
      ensures var id, b := s.workers[a].jobId, s.workers[a].curr.value;
              id in s'.jobs && b < |s'.jobs[id].batches| && s'.jobs[id].batches[b].status != Available
    {
      RefreshKeepsHeld(s, a);
    }
  }

  lemma FlushKeepsJobs(s: State, written: bool, late: set<string>, now: int)
    requires JobsInv(s)
    ensures JobsInv(Flush(s, written, late, now)) && OutputsGrow(s, Flush(s, written, late, now))
  {
    if s.pending != [] {
      assert forall x :: x in s.pending <==> x == s.pending[0] || x in s.pending[1..];
    }
  }

  lemma FlushKeeps(s: State, written: bool, late: set<string>, now: int)
    requires Inv(s)
    ensures Inv(Flush(s, written, late, now)) && OutputsGrow(s, Flush(s, written, late, now))
  {
    FlushKeepsJobs(s, written, late, now);
    hide JobsInv, OutputsGrow;
  }

  function WithOutput(job: Job, out: Output): Job
    requires out.batch < |job.batches|
  {
    var bs := job.batches[out.batch := job.batches[out.batch].(output := Some(out), status := Completed)];
    job.(batches := bs, completedQueries := CompletedCount(bs))
  }

  /** Storing an output computed from the batch it names. */
  lemma ReceiveKeepsJobs(s: State, id: string, a: string, out: Output, now: int)
    requires JobsInv(s) && a in s.workers && id in s.active && out.job == id
    requires id in s.jobs && out.batch < |s.jobs[id].batches|
    ensures var r := ReceiveOutput(s, id, a, out, now);
            r.Some? && JobsInv(r.value) && OutputsGrow(s, r.value) && r.value.active == s.active
            && r.value.workers.Keys == s.workers.Keys
  {
    hide CompletedCount;
    var job := s.jobs[id];
    var j := WithOutput(job, out);
    JobChangeKeepsJobs(s, id, j);
    if CompletedCount(j.batches) >= job.totalQueries && id !in s.pending {
      CountIsAll(j.batches);
      assert AllOutputs(j);
    }
  }

  lemma ReceiveKeeps(s: State, id: string, a: string, out: Output, now: int)
    requires Inv(s) && a in s.workers && id in s.active && out.job == id && out.batch < |s.jobs[id].batches|
    ensures var r := ReceiveOutput(s, id, a, out, now);
            r.Some? && Inv(r.value) && OutputsGrow(s, r.value) && r.value.active == s.active
            && r.value.workers.Keys == s.workers.Keys
  {
    ReceiveKeepsJobs(s, id, a, out, now);
    hide CompletedCount, OutputsGrow;
    var j := WithOutput(s.jobs[id], out);
    var s1 := SetWorker(s, a, s.workers[a].(lastQueryTime := now, curr := None));
    PutDownKeeps(s, a, now);
    forall i | 0 <= i < |j.batches| && j.batches[i].status == Available
      ensures !Held(s1, id, i)
    {
      AvailableUnheld(s1, id, i);
    }
    JobChangeKeepsHolders(s1, id, j);
    QueueKeepsHolders(WithJob(s1, id, j), ReceiveOutput(s, id, a, out, now).value);
  }

  lemma QueueKeepsHolders(s: State, s': State)
    requires HolderInv(s) && s'.jobs == s.jobs && s'.workers == s.workers
    ensures HolderInv(s')
  {
  }

  lemma PutDownKeeps(s: State, a: string, now: int)
    requires HolderInv(s) && a in s.workers
    ensures HolderInv(SetWorker(s, a, s.workers[a].(lastQueryTime := now, curr := None)))
  {
  }

  lemma FetchKeepsJobs(s: State, id: string, a: string, valid: string -> bool)
    requires JobsInv(s) && a in s.workers && id in s.jobs
    ensures var (s', b) := Fetch(s, id, a, valid);
            JobsInv(s') && OutputsGrow(s, s') && (b.Some? ==> b.value < |s.jobs[id].batches|)
  {
    var b := FirstAvailable(s.jobs[id].batches);
    if b.Some? {
      var j := s.jobs[id].(batches := s.jobs[id].batches[b.value := Taken(s.jobs[id].batches[b.value], valid)]);
      JobChangeKeepsJobs(s, id, j);
    }
  }

  lemma FetchKeeps(s: State, id: string, a: string, valid: string -> bool)
    requires Inv(s) && a in s.workers && id in s.jobs && s.workers[a].jobId == id
    ensures var (s', b) := Fetch(s, id, a, valid);
            Inv(s') && OutputsGrow(s, s') && (b.Some? ==> b.value < |s.jobs[id].batches|)
  {
    FetchKeepsJobs(s, id, a, valid);
    assert NO_JOB !in s.jobs;
    hide JobsInv, OutputsGrow;
    var b := FirstAvailable(s.jobs[id].batches);
    if b.Some? {
      var j := s.jobs[id].(batches := s.jobs[id].batches[b.value := Taken(s.jobs[id].batches[b.value], valid)]);
      AvailableUnheld(s, id, b.value);
      forall i | 0 <= i < |j.batches| && j.batches[i].status == Available
        ensures !Held(s, id, i)
      {
        AvailableUnheld(s, id, i);
      }
      JobChangeKeepsHolders(s, id, j);
      TakeUpKeeps(WithJob(s, id, j), a, b);
    } else {
      TakeUpKeeps(s, a, b);
    }
  }

  /** A worker takes up a batch of its job that is in progress and held by nobody. */
  lemma TakeUpKeeps(s: State, a: string, b: Option<nat>)
    requires HolderInv(s) && NO_JOB !in s.jobs && a in s.workers
    requires b.Some? ==>
      && s.workers[a].jobId in s.jobs && b.value < |s.jobs[s.workers[a].jobId].batches|
      && s.jobs[s.workers[a].jobId].batches[b.value].status != Available && !Held(s, s.workers[a].jobId, b.value)
    ensures HolderInv(SetWorker(s, a, s.workers[a].(curr := b)))
  {
    var s' := SetWorker(s, a, s.workers[a].(curr := b));
    forall x | x in s.workers && x != a
      ensures !SameBatch(s'.workers[x], s'.workers[a]) && !SameBatch(s'.workers[a], s'.workers[x])
    {
      assert b.Some? ==> !HeldBy(s, x, s.workers[a].jobId, b.value);
    }
  }

  /** A request whose output, if it has one, was computed from an existing batch, and one of the job it names
      unless it names no job at all. */
  ghost predicate WellTagged(s: State, req: Request) {
    req.output.Some? ==>
      && BatchExists(s, req.output.value.job, req.output.value.batch)
      && (req.jobId != NO_JOB ==> req.output.value.job == req.jobId)
  }

  lemma AfterOutputKeeps(s: State, req: Request, now: int)
    requires JobsInv(s) && WellTagged(s, req) && req.worker in s.workers && req.jobId in s.active
    ensures var r := AfterOutput(s, req, now);
            && r.Some? && JobsInv(r.value) && OutputsGrow(s, r.value)
            && (HolderInv(s) ==> HolderInv(r.value))
  {
    hide HolderInv, JobOk, JobGrows, AllOutputs, ReceiveOutput;
    if req.output.Some? {
      ReceiveKeepsJobs(s, req.jobId, req.worker, req.output.value, now);
      if HolderInv(s) {
        ReceiveKeeps(s, req.jobId, req.worker, req.output.value, now);
      }
    } else {
      GrowReflexive(s);
    }
  }

  lemma AnswerKeeps(s: State, req: Request, valid: string -> bool)
    requires JobsInv(s) && req.worker in s.workers && req.jobId in s.jobs
    ensures var (s', response) := Answer(s, req, valid);
            && JobsInv(s') && OutputsGrow(s, s')
            && (HolderInv(s) ==> HolderInv(s'))
            && (response.Granted? && response.batch.Some? ==> BatchExists(s, req.jobId, response.batch.value))
  {
    GrowReflexive(s);
    hide JobsInv, HolderInv, OutputsGrow, Fetch;
    if s.workers[req.worker].jobId == req.jobId {
      FetchKeepsJobs(s, req.jobId, req.worker, valid);
      if HolderInv(s) {
        FetchKeeps(s, req.jobId, req.worker, valid);
      }
    }
  }

  /** A well-tagged request never makes the handler index outside the job's batches, whoever holds what; and no
      batch gets a second holder. */
  lemma QueryDataKeeps(s: State, req: Request, valid: string -> bool, now: int)
    requires JobsInv(s) && WellTagged(s, req)
    ensures var r := QueryData(s, req, valid, now);
            && r.Some? && JobsInv(r.value.0) && OutputsGrow(s, r.value.0)
            && (HolderInv(s) ==> HolderInv(r.value.0))
            && (r.value.1.Granted? && r.value.1.batch.Some? ==> BatchExists(s, req.jobId, r.value.1.batch.value))
  {
    GrowReflexive(s);
    if req.worker in s.workers && req.jobId in s.active {
      assert req.jobId in s.jobs;
      hide JobsInv, HolderInv, Answer, AfterOutput, JobGrows;
      AfterOutputKeeps(s, req, now);
      var s1 := AfterOutput(s, req, now).value;
      AnswerKeeps(s1, req, valid);
      GrowTransitive(s, s1, Answer(s1, req, valid).0);
      assert JobGrows(s.jobs[req.jobId], s1.jobs[req.jobId]);
      SameBatches(s, s1, req.jobId);
    }
  }

  lemma SameBatches(s: State, s': State, id: string)
    requires id in s.jobs && id in s'.jobs && JobGrows(s.jobs[id], s'.jobs[id])
    ensures forall b: nat :: BatchExists(s, id, b) <==> BatchExists(s', id, b)
  {
  }

  lemma GrowReflexive(s: State)
    ensures OutputsGrow(s, s)
  {
  }

  lemma GrowTransitive(s: State, s': State, s'': State)
    requires OutputsGrow(s, s') && OutputsGrow(s', s'')
    ensures OutputsGrow(s, s'')
  {
  }

  // ---- Committing an assignment ----

  /** An assignment to a still-idle worker. */
  lemma GuardedCommitKeeps(s: State, a: string, id: string, now: int)
    requires Inv(s) && a in s.workers && s.workers[a].Idle()
    ensures Inv(Commit(s, a, id, now)) && OutputsGrow(s, Commit(s, a, id, now))
  {
  }

  /** What an assignment that does not check the worker needs: the batch in its hands, read as a batch of
      the new job, exists, is not available and is nobody else's. */
  ghost predicate CommitSafe(s: State, a: string, id: string) {
    a in s.workers && s.workers[a].curr.Some? && s.workers[a].jobId != id ==>
      var b := s.workers[a].curr.value;
      && id in s.jobs && b < |s.jobs[id].batches| && s.jobs[id].batches[b].status != Available && !Held(s, id, b)
  }

  lemma SafeCommitKeeps(s: State, a: string, id: string, now: int)
    requires HolderInv(s) && id != NO_JOB && CommitSafe(s, a, id)
    ensures HolderInv(Commit(s, a, id, now))
  {
    var s' := Commit(s, a, id, now);
    if a in s.workers && s.workers[a].curr.Some? && s.workers[a].jobId != id {
      forall x | x in s.workers && x != a
        ensures !SameBatch(s'.workers[x], s'.workers[a]) && !SameBatch(s'.workers[a], s'.workers[x])
      {
        assert !HeldBy(s, x, id, s.workers[a].curr.value);
      }
    }
  }

  lemma KeptCommitIsSafe(s: State, a: string, id: string, now: int)
    requires HolderInv(s) && id != NO_JOB && HolderInv(Commit(s, a, id, now))
    ensures CommitSafe(s, a, id)
  {
    var s' := Commit(s, a, id, now);
    if a in s.workers && s.workers[a].curr.Some? && s.workers[a].jobId != id {
      var b := s.workers[a].curr.value;
      assert s'.workers[a].curr == Some(b) && s'.workers[a].jobId == id;
      forall x | x in s.workers
        ensures !HeldBy(s, x, id, b)
      {
        assert x != a ==> !SameBatch(s'.workers[x], s'.workers[a]);
      }
    }
  }

  /** The coordinator's unchecked assignment keeps the holder invariant exactly when it is safe. */
  lemma CommitKeepsIff(s: State, a: string, id: string, now: int)
    requires Inv(s) && id != NO_JOB
    ensures HolderInv(Commit(s, a, id, now)) <==> CommitSafe(s, a, id)
  {
    hide JobsInv, HolderInv, CommitSafe, Commit;
    if CommitSafe(s, a, id) {
      SafeCommitKeeps(s, a, id, now);
    }
    if HolderInv(Commit(s, a, id, now)) {
      KeptCommitIsSafe(s, a, id, now);
    }
  }

  // ---- Releasing a set of workers ----

  lemma ReleasedNone(s: State)
    ensures ReleasedAll(s, {}) == s
  {
    forall id | id in s.jobs
      ensures ReopenedJob(s, {}, id) == s.jobs[id]
    {
      assert ReopenedJob(s, {}, id).batches == s.jobs[id].batches;
    }
    assert ReleasedAll(s, {}).jobs == s.jobs;
    assert ReleasedAll(s, {}).workers == s.workers;
  }

  /** Releasing one more worker succeeds exactly when its batch is one of its job. */
  lemma ReleasedOneMore(s: State, freed: set<string>, a: string)
    requires a in s.workers && a !in freed
    ensures Release(ReleasedAll(s, freed), a)
         == if Fits(s, s.workers[a]) then Some(ReleasedAll(s, freed + {a})) else None
  {
    var s1, w := ReleasedAll(s, freed), s.workers[a];
    if Fits(s, w) {
      var r := Release(s1, a).value;
      forall id | id in s.jobs
        ensures r.jobs[id] == ReopenedJob(s, freed + {a}, id)
      {
        forall i | 0 <= i < |s.jobs[id].batches|
          ensures r.jobs[id].batches[i] == ReopenedJob(s, freed + {a}, id).batches[i]
        {
          MoreHeld(s, freed, a, id, i);
        }
        assert r.jobs[id].batches == ReopenedJob(s, freed + {a}, id).batches;
      }
      assert r.jobs == ReleasedAll(s, freed + {a}).jobs;
      assert r.workers == ReleasedAll(s, freed + {a}).workers;
    }
  }

  lemma MoreHeld(s: State, freed: set<string>, a: string, id: string, i: nat)
    ensures HeldAmong(s, freed + {a}, id, i) <==> HeldAmong(s, freed, id, i) || HeldBy(s, a, id, i)
  {
    assert HeldBy(s, a, id, i) ==> a in freed + {a};
  }

  lemma ReleasedTwice(s: State, freed: set<string>, more: set<string>)
    requires freed !! more
    ensures ReleasedAll(ReleasedAll(s, freed), more) == ReleasedAll(s, freed + more)
  {
    var s1 := ReleasedAll(s, freed);
    var r, goal := ReleasedAll(s1, more), ReleasedAll(s, freed + more);
    forall id | id in s.jobs
      ensures r.jobs[id] == goal.jobs[id]
    {
      forall i | 0 <= i < |s.jobs[id].batches|
        ensures r.jobs[id].batches[i] == goal.jobs[id].batches[i]
      {
        HeldInTwo(s, freed, more, id, i);
      }
      assert r.jobs[id].batches == goal.jobs[id].batches;
    }
    assert r.jobs == goal.jobs;
    assert r.workers == goal.workers;
  }

  lemma HeldInTwo(s: State, freed: set<string>, more: set<string>, id: string, i: nat)
    requires freed !! more
    ensures HeldAmong(s, freed + more, id, i) <==>
      HeldAmong(s, freed, id, i) || HeldAmong(ReleasedAll(s, freed), more, id, i)
  {
    var s1 := ReleasedAll(s, freed);
    assert forall a :: a in more ==> (HeldBy(s1, a, id, i) <==> HeldBy(s, a, id, i));
    assert forall a :: a in freed + more <==> a in freed || a in more;
  }

  /** Releasing workers takes no output back, and splits no batch between two workers. */
  lemma ReleasedAllKeeps(s: State, freed: set<string>)
    ensures JobsInv(s) ==> JobsInv(ReleasedAll(s, freed)) && OutputsGrow(s, ReleasedAll(s, freed))
    ensures Inv(s) ==> Inv(ReleasedAll(s, freed))
  {
    var s' := ReleasedAll(s, freed);
    if JobsInv(s) {
      forall id | id in s.jobs
        ensures JobOk(s'.jobs[id], id) && JobGrows(s.jobs[id], s'.jobs[id])
        ensures AllOutputs(s.jobs[id]) ==> AllOutputs(s'.jobs[id])
      {
        assert JobOk(s.jobs[id], id);
      }
      assert s'.jobs.Keys == s.jobs.Keys;
    }
    if HolderInv(s) {
      ReleasedAllHolders(s, freed);
    }
  }

  lemma ReleasedAllHolders(s: State, freed: set<string>)
    requires HolderInv(s)
    ensures HolderInv(ReleasedAll(s, freed))
  {
    var s' := ReleasedAll(s, freed);
    forall a | a in s'.workers && s'.workers[a].curr.Some?
      ensures s'.workers[a] == s.workers[a] && Fits(s', s'.workers[a])
      ensures s'.jobs[s'.workers[a].jobId].batches[s'.workers[a].curr.value].status != Available
    {
      assert Fits(s, s.workers[a]);
      var id, b := s.workers[a].jobId, s.workers[a].curr.value;
      forall x | x in freed
        ensures !HeldBy(s, x, id, b)
      {
        assert x in s.workers ==> !SameBatch(s.workers[x], s.workers[a]);
      }
    }
  }

  /** Every batch a released worker was working on is available; when no two workers shared one, nobody is
      working on it any more. */
  lemma ReleasedBatchesOpen(s: State, freed: set<string>, a: string)
    requires a in freed && a in s.workers && s.workers[a].curr.Some? && Fits(s, s.workers[a])
    ensures var s', id, b := ReleasedAll(s, freed), s.workers[a].jobId, s.workers[a].curr.value;
            && BatchExists(s', id, b) && s'.jobs[id].batches[b].status == Available
            && (HolderInv(s) ==> !Held(s', id, b))
  {
    var s', id, b := ReleasedAll(s, freed), s.workers[a].jobId, s.workers[a].curr.value;
    assert HeldBy(s, a, id, b);
    if HolderInv(s) {
      ReleasedAllHolders(s, freed);
      AvailableUnheld(s', id, b);
    }
  }

  // ---- Work is not forgotten ----

  /** After a refresh no batch of an active job is stuck: it is available, in the hands of a registered worker,
      or completed with its output stored; and a held batch was left alone. */
  lemma NoBatchStuck(s: State, id: string, i: nat)
    requires JobsInv(s) && id in s.active && id in s.jobs && i < |s.jobs[id].batches|
    ensures var s' := RefreshBatches(s);
            var b := s'.jobs[id].batches[i];
            && match b.status {
                 case Available => true
                 case InProgress => Held(s', id, i)
                 case Completed => b.output.Some?
               }
            && (Held(s, id, i) ==> b == s.jobs[id].batches[i])
  {
    var s' := RefreshBatches(s);
    RefreshBatchesKeepsJobs(s);
    assert JobOk(s'.jobs[id], id);
    if Held(s, id, i) {
      var a :| a in s.workers && HeldBy(s, a, id, i);
      assert HeldBy(s', a, id, i);
    }
  }

  /** The batch a failed worker was working on is nobody's and available, so the next query of the job gets it or
      an earlier one. */
  lemma LostBatchReopened(s: State, a: string)
    requires Inv(s) && a in s.workers && s.workers[a].curr.Some? && s.workers[a].jobId in s.active
    ensures var r := WorkerFailed(s, a);
            var id, b := s.workers[a].jobId, s.workers[a].curr.value;
            && r.Some? && a !in r.value.workers && id in r.value.jobs
            && b < |r.value.jobs[id].batches|
            && r.value.jobs[id].batches[b].status == Available && !Held(r.value, id, b)
            && FirstAvailable(r.value.jobs[id].batches).Some? && FirstAvailable(r.value.jobs[id].batches).value <= b
  {
    FailKeeps(s, a);
    hide JobsInv, OutputsGrow;
    assert HeldExists(s);
    var r := WorkerFailed(s, a).value;
    AvailableUnheld(r, s.workers[a].jobId, s.workers[a].curr.value);
  }
}
