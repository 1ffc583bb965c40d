/** What each step of the coordinator changes, batch by batch and worker by worker, and that it changes nothing else
    (idunno/scheduler.go, idunno/coordinator.go, idunno/coordinator_service.go, api/job.go). */
module CoordinatorEffects {
  import opened Api
  import opened CoordinatorState
  import opened CoordinatorInv

  ghost predicate SameQueues(s: State, s': State) {
    s'.active == s.active && s'.pending == s.pending && s'.completed == s.completed
  }

  ghost predicate SameWorkersBut(s: State, s': State, a: string) {
    && s'.workers.Keys - {a} == s.workers.Keys - {a}
    && forall x :: x in s.workers && x != a ==> x in s'.workers && s'.workers[x] == s.workers[x]
  }

  /** The same jobs and batches, but for the batches in a set, which are available now. */
  ghost predicate OnlyReopened(s: State, s': State, reopened: set<(string, nat)>) {
    && s'.jobs.Keys == s.jobs.Keys
    && forall id :: id in s.jobs ==> SameJobBut(s.jobs[id], s'.jobs[id], set x | x in reopened && x.0 == id :: x.1)
  }

  ghost predicate SameJobBut(j: Job, j': Job, reopened: set<nat>) {
    && j'.totalQueries == j.totalQueries && j'.completedQueries == j.completedQueries && |j'.batches| == |j.batches|
    && forall b :: 0 <= b < |j.batches| ==>
         && j'.batches[b].inputs == j.batches[b].inputs && j'.batches[b].output == j.batches[b].output
         && j'.batches[b].status == if b in reopened then Available else j.batches[b].status
  }

  /** The batch a worker of an active job is working on, if any. */
  ghost function WorkOf(s: State, a: string): set<(string, nat)> {
    if a in s.workers && !s.workers[a].Idle() && s.workers[a].curr.Some? && s.workers[a].jobId in s.active
    then {(s.workers[a].jobId, s.workers[a].curr.value)} else {}
  }

  /** A failed worker is gone, whatever it was doing; the batch it was working on is available; all else stays. The
      coordinator crashes exactly when that batch does not exist. */
  lemma FailureEffect(s: State, a: string)
    ensures var r := WorkerFailed(s, a);
            && (r.None? <==> exists w :: w in WorkOf(s, a) && !BatchExists(s, w.0, w.1))
            && (r.Some? ==>
                  && r.value.workers.Keys == s.workers.Keys - {a} && SameWorkersBut(s, r.value, a)
                  && SameQueues(s, r.value) && OnlyReopened(s, r.value, WorkOf(s, a)))
  {
    if WorkOf(s, a) != {} {
      var w := (s.workers[a].jobId, s.workers[a].curr.value);
      assert w in WorkOf(s, a);
    }
  }

  /** A released worker keeps its place and is idle with nothing in its hands. */
  lemma ReleaseEffect(s: State, a: string)
    requires a in s.workers && s.workers[a].jobId in s.active && !s.workers[a].Idle()
    ensures var r := Release(s, a);
            && (r.None? <==> exists w :: w in WorkOf(s, a) && !BatchExists(s, w.0, w.1))
            && (r.Some? ==>
                  && a in r.value.workers && r.value.workers[a].Idle() && r.value.workers[a].curr == None
                  && r.value.workers[a].lastQueryTime == s.workers[a].lastQueryTime
                  && SameWorkersBut(s, r.value, a) && SameQueues(s, r.value) && OnlyReopened(s, r.value, WorkOf(s, a)))
  {
    if WorkOf(s, a) != {} {
      var w := (s.workers[a].jobId, s.workers[a].curr.value);
      assert w in WorkOf(s, a);
    }
  }

  /** A joiner is idle, heard from now; a job is added as it is, and active. */
  lemma ArrivalEffect(s: State, a: string, now: int, id: string, job: Job)
    ensures var s' := WorkerJoined(s, a, now);
            && s'.jobs == s.jobs && SameQueues(s, s') && SameWorkersBut(s, s', a)
            && a in s'.workers && s'.workers[a] == Worker(NO_JOB, None, now)
    ensures var s' := AddJob(s, id, job);
            && s'.workers == s.workers && s'.pending == s.pending && s'.completed == s.completed
            && s'.active == s.active + {id} && s'.jobs.Keys == s.jobs.Keys + {id} && s'.jobs[id] == job
            && forall x :: x in s.jobs && x != id ==> s'.jobs[x] == s.jobs[x]
  {
  }

  /** A reset worker, if it is still registered, is idle, heard from now. */
  lemma ResetEffect(s: State, a: string, now: int)
    ensures var s' := ResetWorker(s, a, now);
            && s'.jobs == s.jobs && SameQueues(s, s') && SameWorkersBut(s, s', a) && s'.workers.Keys == s.workers.Keys
            && (a in s.workers ==>
                  s'.workers[a].Idle() && s'.workers[a].curr == None && s'.workers[a].lastQueryTime == now)
  {
  }

  /** An assignment names the job and counts as contact; what the worker holds stays. */
  lemma CommitEffect(s: State, a: string, id: string, now: int)
    ensures var s' := Commit(s, a, id, now);
            && s'.jobs == s.jobs && SameQueues(s, s') && SameWorkersBut(s, s', a) && s'.workers.Keys == s.workers.Keys
            && (a in s.workers ==>
                  s'.workers[a] == Worker(id, s.workers[a].curr, now))
  {
  }

  /** The worker refresh resets exactly the workers that are on no active job, so no batch of an active job changes
      hands. */
  lemma WorkerRefreshEffect(s: State, now: int)
    ensures var s' := RefreshWorkers(s, now);
            && s'.jobs == s.jobs && SameQueues(s, s') && s'.workers.Keys == s.workers.Keys
            && forall a :: a in s.workers ==>
                 if s.workers[a].jobId in s.active then s'.workers[a] == s.workers[a]
                 else s'.workers[a].Idle() && s'.workers[a].curr == None && s'.workers[a].lastQueryTime == now
    ensures forall id, b :: id in s.active && id != NO_JOB ==> (Held(RefreshWorkers(s, now), id, b) <==> Held(s, id, b))
  {
    var s' := RefreshWorkers(s, now);
    forall id, b: nat | id in s.active && id != NO_JOB
      ensures Held(s', id, b) <==> Held(s, id, b)
    {
      if a :| a in s.workers && HeldBy(s, a, id, b) {
        assert HeldBy(s', a, id, b);
      }
      if a :| a in s'.workers && HeldBy(s', a, id, b) {
        assert HeldBy(s, a, id, b);
      }
    }
  }

  /** What the batch refresh reopens: batches in progress of active jobs in nobody's hands. */
  ghost predicate Abandoned(s: State, id: string, b: nat) {
    BatchExists(s, id, b) && id in s.active && s.jobs[id].batches[b].status == InProgress && !Held(s, id, b)
  }

  lemma BatchRefreshEffect(s: State)
    ensures var s' := RefreshBatches(s);
            && s'.workers == s.workers && SameQueues(s, s') && s'.jobs.Keys == s.jobs.Keys
            && forall id :: id in s.jobs ==>
                 && s'.jobs[id] == s.jobs[id].(batches := s'.jobs[id].batches)
                 && |s'.jobs[id].batches| == |s.jobs[id].batches|
                 && forall b :: 0 <= b < |s.jobs[id].batches| ==>
                      s'.jobs[id].batches[b] == if Abandoned(s, id, b) then s.jobs[id].batches[b].(status := Available)
                                                else s.jobs[id].batches[b]
  {
  }

  // ---- Storing an output ----

  ghost function CompletedBatches(bs: seq<Batch>): set<nat> {
    set i | 0 <= i < |bs| && bs[i].status == Completed
  }

  /** The count is the number of completed batches. */
  lemma {:induction false} CountsCompleted(bs: seq<Batch>)
    ensures CompletedCount(bs) == |CompletedBatches(bs)|
  {
    if bs != [] {
      var n := |bs| - 1;
      CountsCompleted(bs[..n]);
      assert CompletedBatches(bs) == CompletedBatches(bs[..n]) + if bs[n].status == Completed then {n} else {};
    } else {
      assert CompletedBatches(bs) == {};
    }
  }

  ghost predicate AllCompleted(j: Job) {
    forall i :: 0 <= i < |j.batches| ==> j.batches[i].status == Completed
  }

  /** Exactly this output is stored, in exactly its batch, which is completed; the worker's hands are empty and it was
      heard from now; and the job is queued, behind all others, exactly when no batch is missing any more and it is not
      queued yet. */
  lemma ReceiveEffect(s: State, id: string, a: string, out: Output, now: int)
    requires a in s.workers && id in s.active && id in s.jobs && JobOk(s.jobs[id], id)
    ensures ReceiveOutput(s, id, a, out, now).Some? <==> BatchExists(s, id, out.batch)
    ensures ReceiveOutput(s, id, a, out, now).Some? ==>
      Stored(s, ReceiveOutput(s, id, a, out, now).value, id, a, out, now)
  {
    if BatchExists(s, id, out.batch) {
      var s' := ReceiveOutput(s, id, a, out, now).value;
      CountsCompleted(s'.jobs[id].batches);
      CountIsAll(s'.jobs[id].batches);
    }
  }

  ghost predicate Stored(s: State, s': State, id: string, a: string, out: Output, now: int)
    requires id in s.jobs && a in s.workers
  {
    && BatchExists(s, id, out.batch) && s'.jobs.Keys == s.jobs.Keys
    && (forall x :: x in s.jobs && x != id ==> s'.jobs[x] == s.jobs[x])
    && s'.jobs[id].totalQueries == s.jobs[id].totalQueries
    && s'.jobs[id].completedQueries == |CompletedBatches(s'.jobs[id].batches)|
    && |s'.jobs[id].batches| == |s.jobs[id].batches|
    && (forall b :: 0 <= b < |s.jobs[id].batches| && b != out.batch ==> s'.jobs[id].batches[b] == s.jobs[id].batches[b])
    && s'.jobs[id].batches[out.batch] == Batch(s.jobs[id].batches[out.batch].inputs, Completed, Some(out))
    && SameWorkersBut(s, s', a) && a in s'.workers && s'.workers[a] == Worker(s.workers[a].jobId, None, now)
    && s'.active == s.active && s'.completed == s.completed
    && s'.pending == s.pending + if AllCompleted(s'.jobs[id]) && id !in s.pending then [id] else []
  }

  // ---- Handing out a batch ----

  /** Validation keeps exactly the inputs a dataset accepts, each at its turn: the kept ones are those at the accepted
      positions, in increasing order. */
  lemma {:induction false} ValidatedKeeps(inputs: seq<string>, valid: string -> bool) returns (at: seq<nat>)
    ensures KeptAt(inputs, valid, Validated(inputs, valid), at)
  {
    at := [];
    if inputs != [] {
      var n := |inputs| - 1;
      var rest := ValidatedKeeps(inputs[..n], valid);
      NextKept(inputs, valid);
      hide Validated, KeptAt;
      at := if valid(inputs[n]) then rest + [n] else rest;
      KeptMore(inputs, valid, Validated(inputs[..n], valid), rest);
    }
  }

  /** The kept inputs stand at the listed positions, which are those of the accepted inputs, in increasing order. */
  ghost predicate KeptAt(inputs: seq<string>, valid: string -> bool, kept: seq<string>, at: seq<nat>) {
    && |at| == |kept| && (forall k :: 0 <= k < |at| ==> at[k] < |inputs| && kept[k] == inputs[at[k]])
    && (forall k, l :: 0 <= k < l < |at| ==> at[k] < at[l])
    && (forall i :: 0 <= i < |inputs| ==> (i in at <==> valid(inputs[i])))
  }

  lemma KeptMore(inputs: seq<string>, valid: string -> bool, kept: seq<string>, at: seq<nat>)
    requires inputs != [] && KeptAt(inputs[..|inputs| - 1], valid, kept, at)
    ensures var n := |inputs| - 1;
            if valid(inputs[n]) then KeptAt(inputs, valid, kept + [inputs[n]], at + [n])
            else KeptAt(inputs, valid, kept, at)
  {
    var n := |inputs| - 1;
    assert forall i :: 0 <= i < n ==> inputs[..n][i] == inputs[i];
    assert forall k :: 0 <= k < |at| ==> at[k] in at && at[k] < n;
  }

  /** The kept inputs of all but the last, and the last if it is accepted. */
  lemma NextKept(inputs: seq<string>, valid: string -> bool)
    requires inputs != []
    ensures Validated(inputs, valid)
         == Validated(inputs[..|inputs| - 1], valid)
            + if valid(inputs[|inputs| - 1]) then [inputs[|inputs| - 1]] else []
  {
  }

  /** The worker gets the first available batch, now in progress, with its inputs validated; nothing when there is none.
      No other batch, job, or worker changes. */
  lemma FetchEffect(s: State, id: string, a: string, valid: string -> bool)
    requires a in s.workers && id in s.jobs
    ensures var (s', b) := Fetch(s, id, a, valid); HandedOver(s, s', id, a, b, valid)
  {
    var (s', b) := Fetch(s, id, a, valid);
    assert s'.jobs.Keys == s.jobs.Keys;
  }

  ghost predicate HandedOver(s: State, s': State, id: string, a: string, b: Option<nat>, valid: string -> bool)
    requires a in s.workers && id in s.jobs
  {
    var bs := s.jobs[id].batches;
    && SameQueues(s, s') && SameWorkersBut(s, s', a)
    && a in s'.workers && s'.workers[a] == Worker(s.workers[a].jobId, b, s.workers[a].lastQueryTime)
    && (if b.Some? then b.value < |bs| && bs[b.value].status == Available else true)
    && (forall i :: 0 <= i < (if b.Some? then b.value else |bs|) ==> bs[i].status != Available)
    && (b == None ==> s'.jobs == s.jobs)
    && (b.Some? ==>
          && s'.jobs.Keys == s.jobs.Keys && (forall x :: x in s.jobs && x != id ==> s'.jobs[x] == s.jobs[x])
          && s'.jobs[id] == s.jobs[id].(batches := s'.jobs[id].batches) && |s'.jobs[id].batches| == |bs|
          && (forall i :: 0 <= i < |bs| && i != b.value ==> s'.jobs[id].batches[i] == bs[i])
          && s'.jobs[id].batches[b.value]
             == Batch(Validated(bs[b.value].inputs, valid), InProgress, bs[b.value].output))
  }

  /** A request from an unregistered worker or for an inactive job changes nothing. Otherwise its output is stored
      first, also when the worker has moved to another job since; then it is refused, or handed the next batch. */
  lemma QueryEffect(s: State, req: Request, valid: string -> bool, now: int)
    requires JobsInv(s)
    ensures var r := QueryData(s, req, valid, now);
            if req.worker !in s.workers || req.jobId !in s.active then r == Some((s, Refused))
            else if req.output.Some? && !BatchExists(s, req.jobId, req.output.value.batch) then r == None
            else
              && r.Some? && req.jobId in s.jobs
              && exists mid: State :: Middle(s, mid, req, now)
                   && (if s.workers[req.worker].jobId == req.jobId
                       then r.value.1.Granted?
                            && HandedOver(mid, r.value.0, req.jobId, req.worker, r.value.1.batch, valid)
                       else r.value == (mid, Refused))
  {
    if req.worker in s.workers && req.jobId in s.active {
      assert req.jobId in s.jobs && JobOk(s.jobs[req.jobId], req.jobId) && req.jobId != NO_JOB;
      if req.output.Some? {
        ReceiveEffect(s, req.jobId, req.worker, req.output.value, now);
      }
      hide ReceiveOutput, Stored, Fetch, JobsInv, JobOk, HandedOver;
      var mid := AfterOutput(s, req, now);
      if mid.Some? {
        assert Middle(s, mid.value, req, now);
        assert mid.value.workers[req.worker].jobId == s.workers[req.worker].jobId by {
          MiddleWorker(s, mid.value, req, now);
        }
        FetchEffect(mid.value, req.jobId, req.worker, valid);
      }
    }
  }

  /** Between storing the output and answering. */
  ghost predicate Middle(s: State, mid: State, req: Request, now: int)
    requires req.jobId in s.jobs && req.worker in s.workers
  {
    && req.jobId in mid.jobs && req.worker in mid.workers
    && if req.output.Some? then Stored(s, mid, req.jobId, req.worker, req.output.value, now) else mid == s
  }

  lemma MiddleWorker(s: State, mid: State, req: Request, now: int)
    requires req.jobId in s.jobs && req.worker in s.workers && Middle(s, mid, req, now)
    ensures mid.workers[req.worker].jobId == s.workers[req.worker].jobId
  {
  }

  // ---- Flushing ----

  /** The oldest finished job leaves the active ones, and is done once its results are written, or else stays first in
      the queue; its workers are reset, those of other jobs left alone. */
  lemma FlushEffect(s: State, written: bool, late: set<string>, now: int)
    ensures var s' := Flush(s, written, late, now);
            if s.pending == [] then s' == s
            else
              && s'.jobs == s.jobs && s'.active == s.active - {s.pending[0]}
              && [s.pending[0]] + s.pending[1..] == s.pending
              && s'.pending == (if written then s.pending[1..] else s.pending)
              && s'.completed == s.completed + (if written then {s.pending[0]} else {})
              && s'.workers.Keys == s.workers.Keys
              && forall a :: a in s.workers ==>
                   if s.workers[a].jobId != s.pending[0] || a in late then s'.workers[a] == s.workers[a]
                   else s'.workers[a].Idle() && s'.workers[a].curr == None && s'.workers[a].lastQueryTime == now
  {
  }
}
