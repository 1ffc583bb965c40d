/** The coordinator's state and the effect of each of its atomic steps (idunno/scheduler.go,
    idunno/coordinator.go, idunno/coordinator_service.go, api/job.go). */
module CoordinatorState {
  import opened Api

  const NO_JOB: string := ""

  datatype BatchStatus = Available | InProgress | Completed

  /** The result of one inference round, remembering which batch of which job it was computed from. */
  datatype Output = Output(job: string, batch: nat, results: seq<string>)

  datatype Batch = Batch(inputs: seq<string>, status: BatchStatus, output: Option<Output>)

  datatype Job = Job(batches: seq<Batch>, totalQueries: int, completedQueries: int)

  /** A registered worker: the job it is assigned to, the batch it works on, its last contact. */
  datatype Worker = Worker(jobId: string, curr: Option<nat>, lastQueryTime: int) {
    predicate Idle() {
      jobId == NO_JOB
    }
  }

  /** jobs holds every job ever added, by id; the three collections of the scheduler hold ids. */
  datatype State = State(
    jobs: map<string, Job>,
    active: set<string>,
    pending: seq<string>,
    completed: set<string>,
    workers: map<string, Worker>)

  datatype Request = Request(jobId: string, worker: string, output: Option<Output>)

  datatype Response = Refused | Granted(batch: Option<nat>)

  // ---- api/job.go ----

  /** Index of the first available batch. */
  function FirstAvailable(bs: seq<Batch>): (r: Option<nat>)
    ensures r.Some? ==> r.value < |bs| && bs[r.value].status == Available
    ensures forall i :: 0 <= i < (if r.Some? then r.value else |bs|) ==> bs[i].status != Available
  {
    if bs == [] then None
    else if bs[0].status == Available then Some(0)
    else
      var rest := FirstAvailable(bs[1..]);
      assert forall i :: 1 <= i < |bs| ==> bs[i] == bs[1..][i - 1];
      if rest.Some? then Some(rest.value + 1) else None
  }

  function CompletedCount(bs: seq<Batch>): (n: nat)
    ensures n <= |bs|
  {
    if bs == [] then 0
    else CompletedCount(bs[..|bs| - 1]) + if bs[|bs| - 1].status == Completed then 1 else 0
  }

  /** The count reaches the number of batches exactly when every batch is completed. */
  lemma {:induction false} CountIsAll(bs: seq<Batch>)
    ensures CompletedCount(bs) == |bs| <==> forall i :: 0 <= i < |bs| ==> bs[i].status == Completed
  {
    if bs != [] {
      CountIsAll(bs[..|bs| - 1]);
      assert forall i :: 0 <= i < |bs| - 1 ==> bs[..|bs| - 1][i] == bs[i];
    }
  }

  function SetStatus(bs: seq<Batch>, i: nat, st: BatchStatus): seq<Batch>
    requires i < |bs|
  {
    bs[i := bs[i].(status := st)]
  }

  // ---- Steps ----

  function SetBatches(s: State, id: string, bs: seq<Batch>): State
    requires id in s.jobs
  {
    s.(jobs := s.jobs[id := s.jobs[id].(batches := bs)])
  }

  /** Make one batch of a job available again. */
  function Reopen(s: State, id: string, b: nat): State
    requires id in s.jobs && b < |s.jobs[id].batches|
  {
    SetBatches(s, id, SetStatus(s.jobs[id].batches, b, Available))
  }

  function SetWorker(s: State, a: string, w: Worker): State {
    s.(workers := s.workers[a := w])
  }

  function AddJob(s: State, id: string, job: Job): State {
    s.(jobs := s.jobs[id := job], active := s.active + {id})
  }

  function WorkerJoined(s: State, a: string, now: int): State {
    SetWorker(s, a, Worker(NO_JOB, None, now))
  }

  /** Reopen a batch if it exists; absent stands for the crash of indexing outside the job's batches. */
  function TryReopen(s: State, id: string, b: nat): Option<State> {
    if id in s.jobs && b < |s.jobs[id].batches| then Some(Reopen(s, id, b)) else None
  }

  /** A failed worker is unregistered and its unfinished batch reopened. */
  function WorkerFailed(s: State, a: string): Option<State> {
    if a !in s.workers then Some(s)
    else
      var w := s.workers[a];
      var s' := s.(workers := s.workers - {a});
      if w.Idle() || w.curr.None? || w.jobId !in s.active then Some(s')
      else TryReopen(s', w.jobId, w.curr.value)
  }

  function ResetWorker(s: State, a: string, now: int): State {
    if a in s.workers then SetWorker(s, a, Worker(NO_JOB, None, now)) else s
  }

  /** Workers assigned to no active job become idle. */
  function RefreshWorkers(s: State, now: int): State {
    s.(workers := map a | a in s.workers ::
         if s.workers[a].jobId in s.active then s.workers[a] else Worker(NO_JOB, None, now))
  }

  predicate HeldBy(s: State, a: string, id: string, b: nat) {
    a in s.workers && s.workers[a].jobId == id && s.workers[a].curr == Some(b)
  }

  predicate Held(s: State, id: string, b: nat) {
    exists a :: a in s.workers && HeldBy(s, a, id, b)
  }

  function RefreshBatch(s: State, id: string, i: nat, b: Batch): Batch {
    if b.status == InProgress && !Held(s, id, i) then b.(status := Available) else b
  }

  /** In-progress batches of active jobs nobody works on become available. */
  function RefreshJob(s: State, id: string): (j: Job)
    requires id in s.jobs
    ensures |j.batches| == |s.jobs[id].batches|
    ensures forall i :: 0 <= i < |j.batches| ==> j.batches[i] == RefreshBatch(s, id, i, s.jobs[id].batches[i])
  {
    var bs := s.jobs[id].batches;
    s.jobs[id].(batches := seq(|bs|, i requires 0 <= i < |bs| => RefreshBatch(s, id, i, bs[i])))
  }

  function RefreshBatches(s: State): State {
    s.(jobs := map id | id in s.jobs :: if id in s.active then RefreshJob(s, id) else s.jobs[id])
  }

  /** Take a worker off its job, reopening the batch it was working on. */
  function Release(s: State, a: string): Option<State>
    requires a in s.workers
  {
    var w := s.workers[a];
    var s' := SetWorker(s, a, Freed(w));
    if w.curr.None? then Some(s') else TryReopen(s', w.jobId, w.curr.value)
  }

  function Freed(w: Worker): Worker {
    w.(jobId := NO_JOB, curr := None)
  }

  /** Releasing a whole set of workers: each is taken off its job, and exactly the batches they were working on
      are available again. */
  ghost function ReleasedAll(s: State, freed: set<string>): State {
    s.(jobs := map id | id in s.jobs :: ReopenedJob(s, freed, id),
       workers := map a | a in s.workers :: if a in freed then Freed(s.workers[a]) else s.workers[a])
  }

  ghost predicate HeldAmong(s: State, freed: set<string>, id: string, b: nat) {
    exists a :: a in freed && HeldBy(s, a, id, b)
  }

  ghost function ReopenedJob(s: State, freed: set<string>, id: string): (j: Job)
    requires id in s.jobs
    ensures j == s.jobs[id].(batches := j.batches) && |j.batches| == |s.jobs[id].batches|
    ensures forall i :: 0 <= i < |j.batches| ==>
      j.batches[i] ==
        if HeldAmong(s, freed, id, i) then s.jobs[id].batches[i].(status := Available) else s.jobs[id].batches[i]
  {
    var bs := s.jobs[id].batches;
    s.jobs[id].(batches := seq(|bs|, i requires 0 <= i < |bs| =>
      if HeldAmong(s, freed, id, i) then bs[i].(status := Available) else bs[i]))
  }

  /** The assignment of a scheduled worker as the coordinator writes it: whatever the worker does now. */
  function Commit(s: State, a: string, id: string, now: int): State {
    if a in s.workers then SetWorker(s, a, s.workers[a].(jobId := id, lastQueryTime := now)) else s
  }

  /** Store an output; absent stands for the index-out-of-range crash. */
  function ReceiveOutput(s: State, id: string, a: string, out: Output, now: int): Option<State>
    requires a in s.workers && id in s.active && id in s.jobs
  {
    var job := s.jobs[id];
    if out.batch >= |job.batches| then None
    else
      var bs := job.batches[out.batch := job.batches[out.batch].(output := Some(out), status := Completed)];
      var count := CompletedCount(bs);
      var s' := s.(jobs := s.jobs[id := job.(batches := bs, completedQueries := count)],
                   workers := s.workers[a := s.workers[a].(lastQueryTime := now, curr := None)]);
      Some(if count < job.totalQueries || id in s.pending then s' else s'.(pending := s.pending + [id]))
  }

  /** The inputs a dataset accepts, in order. */
  function Validated(inputs: seq<string>, valid: string -> bool): seq<string> {
    if inputs == [] then []
    else
      var last := inputs[|inputs| - 1];
      Validated(inputs[..|inputs| - 1], valid) + (if valid(last) then [last] else [])
  }

  function Taken(b: Batch, valid: string -> bool): Batch {
    b.(status := InProgress, inputs := Validated(b.inputs, valid))
  }

  /** Hand the first available batch of a job, its inputs validated, to a worker. */
  function Fetch(s: State, id: string, a: string, valid: string -> bool): (State, Option<nat>)
    requires a in s.workers && id in s.jobs
  {
    var bs := s.jobs[id].batches;
    var b := FirstAvailable(bs);
    var s' := if b.Some? then SetBatches(s, id, bs[b.value := Taken(bs[b.value], valid)]) else s;
    (SetWorker(s', a, s'.workers[a].(curr := b)), b)
  }

  /** First the request's output, if it has one, is stored. */
  function AfterOutput(s: State, req: Request, now: int): (r: Option<State>)
    requires req.worker in s.workers && req.jobId in s.active && req.jobId in s.jobs
    ensures r.Some? ==> req.worker in r.value.workers && req.jobId in r.value.jobs
  {
    if req.output.Some? then ReceiveOutput(s, req.jobId, req.worker, req.output.value, now) else Some(s)
  }

  /** Then a worker of the job gets a batch. */
  function Answer(s: State, req: Request, valid: string -> bool): (State, Response)
    requires req.worker in s.workers && req.jobId in s.jobs
  {
    if s.workers[req.worker].jobId != req.jobId || s.workers[req.worker].Idle() then (s, Refused)
    else
      var (s', b) := Fetch(s, req.jobId, req.worker, valid);
      (s', Granted(b))
  }

  /** The QueryData handler. */
  function QueryData(s: State, req: Request, valid: string -> bool, now: int): Option<(State, Response)> {
    if req.worker !in s.workers || req.jobId !in s.active then Some((s, Refused))
    else if req.jobId !in s.jobs then None
    else
      var s1 := AfterOutput(s, req, now);
      if s1.None? then None else Some(Answer(s1.value, req, valid))
  }

  /** Process the oldest finished job. Its workers are reset, those in late possibly after the lock is
      released; when the results cannot be written the job stays queued. */
  function Flush(s: State, written: bool, late: set<string>, now: int): State {
    if s.pending == [] then s
    else
      var id := s.pending[0];
      var s' := s.(active := s.active - {id},
                   workers := map a | a in s.workers ::
                     if s.workers[a].jobId == id && a !in late then Worker(NO_JOB, None, now) else s.workers[a]);
      if !written then s'
      else s'.(pending := s.pending[1..], completed := s.completed + {id})
  }
}
