/** Runs of the inference cluster that do happen: the coordinator crashes, and an output travels under no job. */
module CrashRuns {
  import opened Api
  import opened CoordinatorState
  import opened CoordinatorInv
  import opened InferenceRun

  ghost predicate Reachable(s: System) {
    exists trace: seq<System>, steps: seq<Step> :: IsRun(trace, steps) && trace[|steps|] == s
  }

  /** One step further. */
  lemma Extend(s: System, step: Step) returns (s': System)
    requires Reachable(s) && Enabled(s, step) && Apply(s, step).Some?
    ensures Reachable(s') && Some(s') == Apply(s, step)
  {
    hide Enabled, Apply, Init;
    s' := Apply(s, step).value;
    var trace: seq<System>, steps: seq<Step> :| IsRun(trace, steps) && trace[|steps|] == s;
    hide Reachable;
    var t, ss := trace + [s'], steps + [step];
    forall i | 0 <= i < |ss|
      ensures Enabled(t[i], ss[i]) && Apply(t[i], ss[i]) == Some(t[i + 1])
    {
      if i < |steps| {
        assert t[i] == trace[i] && t[i + 1] == trace[i + 1] && ss[i] == steps[i];
      }
    }
    assert t[0] == trace[0];
    RunReaches(t, ss);
  }

  lemma RunReaches(trace: seq<System>, steps: seq<Step>)
    requires IsRun(trace, steps)
    ensures Reachable(trace[|steps|])
  {
  }

  /** One step of a worker on its own. */
  lemma Moves(s: System, a: string, step: Step) returns (s': System)
    requires Reachable(s) && OfWorker(step) && !step.Boot? && !step.Send? && !step.WriteJob? && !step.ClearOutput?
    requires a == Actor(step) && a in s.locals && Ready(s.locals[a], step)
    ensures Reachable(s') && s' == s.(locals := s.locals[a := NextLocal(s.locals[a], step)])
  {
    hide Reachable, Ready, NextLocal;
    s' := Extend(s, step);
  }

  lemma Boots(s: System, a: string) returns (s': System)
    requires Reachable(s)
    ensures Reachable(s') && s' == s.(locals := s.locals[a := Local(NO_JOB, None, Free)])
  {
    hide Reachable;
    s' := Extend(s, Boot(a));
  }

  lemma Sends(s: System, a: string) returns (s': System)
    requires Reachable(s) && a in s.locals && s.locals[a].phase.JobRead?
    ensures var l := s.locals[a];
            && Reachable(s')
            && s' == s.(locals := s.locals[a := l.(phase := Waiting(l.phase.job))],
                        sent := s.sent + {Request(l.phase.job, a, l.output)})
  {
    hide Reachable;
    s' := Extend(s, Send(a));
  }

  lemma Writes(s: System, x: Assignment) returns (s': System)
    requires Reachable(s) && x in s.planned && x.stage == Requested && At(s, x.worker, Free)
    ensures Reachable(s')
    ensures s' == s.(locals := s.locals[x.worker := s.locals[x.worker].(jobId := x.job, phase := Assigning(x))],
                     planned := s.planned - multiset{x})
  {
    hide Reachable;
    s' := Extend(s, WriteJob(x));
  }

  lemma Clears(s: System, x: Assignment) returns (s': System)
    requires Reachable(s) && At(s, x.worker, Assigning(x))
    ensures Reachable(s')
    ensures s' == s.(locals := s.locals[x.worker := s.locals[x.worker].(output := None, phase := Free)],
                     planned := s.planned + multiset{x.(stage := Accepted)})
  {
    hide Reachable;
    s' := Extend(s, ClearOutput(x.worker));
  }

  lemma Flushing(s: System) returns (s': System)
    requires Reachable(s)
    ensures Reachable(s') && s' == s.(coord := Flush(s.coord, true, {}, 0))
  {
    hide Reachable, Flush;
    s' := Extend(s, Flushed(true, {}, 0));
  }

  lemma Adds(s: System, id: string, job: Job) returns (s': System)
    requires Reachable(s) && id !in s.coord.jobs && id != NO_JOB && FreshJob(job)
    ensures Reachable(s') && s' == s.(coord := AddJob(s.coord, id, job))
  {
    hide Reachable, FreshJob;
    s' := Extend(s, NewJob(id, job));
  }

  lemma Joins(s: System, a: string) returns (s': System)
    requires Reachable(s)
    ensures Reachable(s')
    ensures s' == s.(coord := WorkerJoined(s.coord, a, 0),
                     registrations := s.registrations[a := Registration(s, a) + 1])
  {
    hide Reachable;
    s' := Extend(s, Joined(a, 0));
  }

  lemma Plans(s: System, a: string, id: string) returns (s': System)
    requires Reachable(s) && a in s.coord.workers && s.coord.workers[a].Idle() && id in s.coord.active
    ensures Reachable(s') && s' == s.(planned := s.planned + multiset{Assignment(a, Registration(s, a), id, ModelNext)})
  {
    hide Reachable;
    s' := Extend(s, Planned(a, id));
  }

  lemma Builds(s: System, x: Assignment) returns (s': System)
    requires Reachable(s) && x in s.planned && x.stage == ModelNext && x.job in s.coord.active
    ensures Reachable(s') && s' == Advance(s, x, Requested)
  {
    hide Reachable;
    var s1 := Extend(s, ReadInfo(x));
    assert s1 == Advance(s, x, SizeNext);
    hide Apply, Enabled;
    s' := BuildsOn(s1, x.(stage := SizeNext));
    assert s'.planned == s.planned - multiset{x} + multiset{x.(stage := Requested)};
  }

  lemma BuildsOn(s: System, x: Assignment) returns (s': System)
    requires Reachable(s) && x in s.planned && x.stage == SizeNext && x.job in s.coord.active
    ensures Reachable(s') && s' == Advance(s, x, Requested)
  {
    hide Reachable;
    s' := Extend(s, ReadInfo(x));
  }

  lemma Commits(s: System, x: Assignment) returns (s': System)
    requires Reachable(s) && x in s.planned && x.stage == Accepted && Current(s, x)
    ensures Reachable(s')
    ensures s' == s.(coord := Commit(s.coord, x.worker, x.job, 0), planned := s.planned - multiset{x})
  {
    hide Reachable;
    s' := Extend(s, Committed(x, 0));
  }

  lemma Serves(s: System, req: Request, c: State, response: Response) returns (s': System)
    requires Reachable(s) && req in s.sent && QueryData(s.coord, req, AnyInput, 0) == Some((c, response))
    ensures Reachable(s') && s' == Delivered(s.(coord := c), req, response)
  {
    hide Reachable, QueryData;
    s' := Extend(s, Served(req, true, AnyInput, 0));
  }

  const W: string := "w"
  const A: string := "a"
  const B: string := "b"
  const OPEN: Batch := Batch(["x"], Available, None)
  const JOB_A: Job := Job([OPEN, OPEN], 2, 0)
  const JOB_B: Job := Job([OPEN], 1, 0)
  const NOBODY: State := State(map[], {}, [], {}, map[])

  /** The assignment of a job to the worker's first registration. */
  ghost function Task(a: string, id: string, stage: Stage): Assignment {
    Assignment(a, 1, id, stage)
  }

  /** A worker joins while a job is waiting, and the next schedule plans it for the job. */
  lemma PlannedOnce(id: string, job: Job) returns (s: System)
    requires id != NO_JOB && FreshJob(job)
    ensures Reachable(s)
    ensures s.coord == State(map[id := job], {id}, [], {}, map[W := Worker(NO_JOB, None, 0)])
    ensures s.locals == map[W := Local(NO_JOB, None, Free)] && s.registrations == map[W := 1]
    ensures s.planned == multiset{Task(W, id, ModelNext)}
  {
    s := System(NOBODY, map[], {}, map[], multiset{});
    var steps: seq<Step> := [];
    assert IsRun([s], steps) && [s][|steps|] == s;
    hide Reachable, Enabled, Apply;
    s := Adds(s, id, job);
    s := Joins(s, W);
    s := Boots(s, W);
    s := Plans(s, W, id);
  }

  /** Before that assignment goes on job B is added, and the next schedule plans the worker for B. */
  lemma PlannedTwice() returns (s: System)
    ensures Reachable(s)
    ensures s.coord == State(map[A := JOB_A, B := JOB_B], {A, B}, [], {}, map[W := Worker(NO_JOB, None, 0)])
    ensures s.locals == map[W := Local(NO_JOB, None, Free)] && s.registrations == map[W := 1]
    ensures s.planned == multiset{Task(W, A, ModelNext), Task(W, B, ModelNext)}
  {
    s := PlannedOnce(A, JOB_A);
    hide Reachable, Enabled, Apply;
    s := Adds(s, B, JOB_B);
    s := Plans(s, W, B);
  }

  /** The worker accepts job A, and the assignment is committed. */
  lemma AssignedToA() returns (s: System)
    ensures Reachable(s) && s.coord == Both([OPEN, OPEN], 0, None)
    ensures s.locals == map[W := Local(A, None, Free)] && s.registrations == map[W := 1]
    ensures s.planned == multiset{Task(W, B, ModelNext)}
  {
    s := PlannedTwice();
    hide Reachable, Enabled, Apply;
    s := Accepts(s, A);
    s := Commits(s, Task(W, A, Accepted));
  }

  /** It works on A's first batch. */
  lemma FirstBatch() returns (s: System)
    ensures Reachable(s)
    ensures s.coord == Both([TAKEN, OPEN], 0, Some(0))
    ensures s.locals == map[W := Local(A, None, Computing(A, 0))] && s.registrations == map[W := 1]
    ensures s.planned == multiset{Task(W, B, ModelNext)}
  {
    s := AssignedToA();
    hide Reachable, Enabled, Apply, QueryData;
    s := Asks(s, A, None);
    FirstServed();
    s := Serves(s, Request(A, W, None), Both([TAKEN, OPEN], 0, Some(0)), Granted(Some(0)));
  }

  predicate AnyInput(x: string) {
    true
  }

  /** The request for a planned job is built and sent, and the worker accepts it. */
  lemma Accepts(s: System, id: string) returns (s': System)
    requires Reachable(s) && W in s.locals && s.locals == map[W := s.locals[W]] && s.locals[W].phase == Free
    requires Task(W, id, ModelNext) in s.planned && id in s.coord.active
    ensures Reachable(s')
    ensures s' == Advance(s, Task(W, id, ModelNext), Accepted).(locals := map[W := Local(id, None, Free)])
  {
    hide Reachable, Enabled, Apply;
    s' := Builds(s, Task(W, id, ModelNext));
    s' := Writes(s', Task(W, id, Requested));
    s' := Clears(s', Task(W, id, Requested));
  }

  /** The worker sends a request. */
  lemma Asks(s: System, job: string, out: Option<Output>) returns (s': System)
    requires Reachable(s) && job != NO_JOB && s.locals == map[W := Local(job, out, Free)]
    ensures Reachable(s') && s'.coord == s.coord && s'.planned == s.planned && s'.registrations == s.registrations
    ensures s'.locals == map[W := Local(job, out, Waiting(job))] && Request(job, W, out) in s'.sent
  {
    hide Reachable, Enabled, Apply;
    s' := Moves(s, W, CheckJob(W));
    s' := Moves(s', W, ReadJob(W));
    s' := Sends(s', W);
  }

  const TAKEN: Batch := OPEN.(status := InProgress)
  const FIRST: Output := Output(A, 0, [])
  const DONE: Batch := OPEN.(status := Completed, output := Some(FIRST))

  ghost function Both(batches: seq<Batch>, count: int, curr: Option<nat>): State {
    State(map[A := Job(batches, 2, count), B := JOB_B], {A, B}, [], {}, map[W := Worker(A, curr, 0)])
  }

  lemma FirstServed()
    ensures QueryData(Both([OPEN, OPEN], 0, None), Request(A, W, None), AnyInput, 0)
         == Some((Both([TAKEN, OPEN], 0, Some(0)), Granted(Some(0))))
  {
    var s := Both([OPEN, OPEN], 0, None);
    assert FirstAvailable([OPEN, OPEN]) == Some(0);
    OpenTaken();
    assert [OPEN, OPEN][0 := Taken(OPEN, AnyInput)] == [TAKEN, OPEN];
    var s' := Fetch(s, A, W, AnyInput).0;
    assert s'.jobs == Both([TAKEN, OPEN], 0, Some(0)).jobs;
    assert s'.workers == map[W := Worker(A, Some(0), 0)];
  }

  lemma SecondServed()
    ensures QueryData(Both([TAKEN, OPEN], 0, Some(0)), Request(A, W, Some(FIRST)), AnyInput, 0)
         == Some((Both([DONE, TAKEN], 1, Some(1)), Granted(Some(1))))
  {
    hide ReceiveOutput, Answer;
    SecondStored();
    SecondAnswer();
  }

  lemma SecondStored()
    ensures ReceiveOutput(Both([TAKEN, OPEN], 0, Some(0)), A, W, FIRST, 0) == Some(Both([DONE, OPEN], 1, None))
  {
    var bs, goal := [DONE, OPEN], Both([DONE, OPEN], 1, None);
    assert [TAKEN, OPEN][0 := DONE] == bs;
    assert bs[..1] == [DONE] && [DONE][..0] == [];
    assert CompletedCount([DONE]) == 1;
    assert CompletedCount(bs) == 1;
    hide CompletedCount;
    var s := ReceiveOutput(Both([TAKEN, OPEN], 0, Some(0)), A, W, FIRST, 0).value;
    assert s.jobs == goal.jobs && s.workers == goal.workers;
  }

  lemma SecondAnswer()
    ensures Answer(Both([DONE, OPEN], 1, None), Request(A, W, Some(FIRST)), AnyInput)
         == (Both([DONE, TAKEN], 1, Some(1)), Granted(Some(1)))
  {
    var bs, goal := [DONE, OPEN], Both([DONE, TAKEN], 1, Some(1));
    assert bs[1..] == [OPEN] && FirstAvailable([OPEN]) == Some(0) && FirstAvailable(bs) == Some(1);
    OpenTaken();
    hide Taken, FirstAvailable;
    assert bs[1 := Taken(OPEN, AnyInput)] == [DONE, TAKEN];
    var s := Fetch(Both(bs, 1, None), A, W, AnyInput).0;
    assert s.jobs == goal.jobs && s.workers == goal.workers;
  }

  /** It returns the first output and gets A's second batch. */
  lemma SecondBatch() returns (s: System)
    ensures Reachable(s)
    ensures s.coord == Both([DONE, TAKEN], 1, Some(1))
    ensures s.locals == map[W := Local(A, Some(FIRST), Computing(A, 1))] && s.registrations == map[W := 1]
    ensures s.planned == multiset{Task(W, B, ModelNext)}
  {
    s := FirstBatch();
    hide Reachable, Enabled, Apply, QueryData;
    s := Moves(s, W, FinishBatch(W, []));
    s := Asks(s, A, Some(FIRST));
    SecondServed();
    s := Serves(s, Request(A, W, Some(FIRST)), Both([DONE, TAKEN], 1, Some(1)), Granted(Some(1)));
  }

  /** The worker, on A's second batch, is assigned to B, which has one batch. */
  lemma Misfit() returns (s: System)
    ensures Reachable(s) && s.coord == Both([DONE, TAKEN], 1, Some(1)).(workers := map[W := Worker(B, Some(1), 0)])
  {
    s := SecondBatch();
    hide Reachable, Enabled, Apply;
    s := Moves(s, W, FinishBatch(W, []));
    s := Accepts(s, B);
    s := Commits(s, Task(W, B, Accepted));
  }

  /** The unchecked assignment crashes a run the code has: that worker fails. */
  lemma CrashHappens() returns (s: System)
    ensures Reachable(s) && Enabled(s, Failed(W)) && Apply(s, Failed(W)) == None
  {
    s := Misfit();
    hide Reachable;
  }

  const V: string := "v"
  const ONLY: Output := Output(B, 0, [])

  /** Job B alone, its one batch in some state. */
  ghost function Alone(batch: Batch, count: int, pending: seq<string>, curr: Option<nat>): State {
    State(map[B := Job([batch], 1, count)], {B}, pending, {}, map[W := Worker(B, curr, 0)])
  }

  const ANSWERED: Batch := OPEN.(status := Completed, output := Some(ONLY))

  lemma OnlyServed()
    ensures QueryData(Alone(OPEN, 0, [], None), Request(B, W, None), AnyInput, 0)
         == Some((Alone(TAKEN, 0, [], Some(0)), Granted(Some(0))))
  {
    assert FirstAvailable([OPEN]) == Some(0);
    OpenTaken();
    hide Validated, FirstAvailable, Taken;
    assert [OPEN][0 := Taken(OPEN, AnyInput)] == [TAKEN];
    var s, goal := Fetch(Alone(OPEN, 0, [], None), B, W, AnyInput).0, Alone(TAKEN, 0, [], Some(0));
    assert s.jobs == goal.jobs && s.workers == goal.workers;
  }

  lemma OpenTaken()
    ensures Taken(OPEN, AnyInput) == TAKEN
  {
    assert Validated(["x"], AnyInput) == ["x"] by {
      assert ["x"][..0] == [];
    }
  }

  lemma OnlyAnswered()
    ensures QueryData(Alone(TAKEN, 0, [], Some(0)), Request(B, W, Some(ONLY)), AnyInput, 0)
         == Some((Alone(ANSWERED, 1, [B], None), Granted(None)))
  {
    var s := Alone(TAKEN, 0, [], Some(0));
    assert [TAKEN][0 := ANSWERED] == [ANSWERED] && [ANSWERED][..0] == [] && [ANSWERED][1..] == [];
    assert CompletedCount([ANSWERED]) == 1;
    var s1 := ReceiveOutput(s, B, W, ONLY, 0).value;
    assert s1.jobs == Alone(ANSWERED, 1, [B], None).jobs && s1.workers == map[W := Worker(B, None, 0)];
    assert s1 == Alone(ANSWERED, 1, [B], None);
    assert FirstAvailable([ANSWERED]) == None;
    var s2 := Fetch(s1, B, W, AnyInput).0;
    assert s2.workers == map[W := Worker(B, None, 0)];
  }

  lemma AssignedToB() returns (s: System)
    ensures Reachable(s) && s.coord == Alone(OPEN, 0, [], None)
    ensures s.locals == map[W := Local(B, None, Free)]
    ensures s.registrations == map[W := 1] && s.planned == multiset{}
  {
    s := PlannedOnce(B, JOB_B);
    hide Reachable, Enabled, Apply;
    s := Accepts(s, B);
    s := Commits(s, Task(W, B, Accepted));
  }

  /** The worker is on job B's only batch. */
  lemma OnOnlyBatch() returns (s: System)
    ensures Reachable(s) && s.coord == Alone(TAKEN, 0, [], Some(0))
    ensures s.locals == map[W := Local(B, None, Computing(B, 0))]
    ensures s.registrations == map[W := 1] && s.planned == multiset{}
  {
    s := AssignedToB();
    hide Reachable, Enabled, Apply, QueryData;
    s := Asks(s, B, None);
    OnlyServed();
    s := Serves(s, Request(B, W, None), Alone(TAKEN, 0, [], Some(0)), Granted(Some(0)));
  }

  /** It has answered, and the job is queued, but active until it is flushed. */
  lemma Finished() returns (s: System)
    ensures Reachable(s) && s.coord == Alone(ANSWERED, 1, [B], None)
    ensures s.registrations == map[W := 1] && s.planned == multiset{}
  {
    s := OnOnlyBatch();
    hide Reachable, Enabled, Apply, QueryData;
    s := Moves(s, W, FinishBatch(W, []));
    s := Asks(s, B, Some(ONLY));
    OnlyAnswered();
    s := Serves(s, Request(B, W, Some(ONLY)), Alone(ANSWERED, 1, [B], None), Granted(None));
  }

  /** A second worker is planned for the finished job, and the job is flushed: all holders are in order. */
  lemma PlannedThenFlushed() returns (s: System)
    ensures Reachable(s) && s.planned == multiset{Task(V, B, ModelNext)}
    ensures s.coord.active == {} && s.coord.workers == map[W := Worker(NO_JOB, None, 0), V := Worker(NO_JOB, None, 0)]
  {
    s := Finished();
    hide Reachable, Enabled, Apply;
    s := Joins(s, V);
    s := Plans(s, V, B);
    s := Flushing(s);
  }

  /** The other crash of runs the code has: now the request for that worker is built. */
  lemma FlushCrashHappens() returns (s: System, x: Assignment)
    ensures Reachable(s) && HolderInv(s.coord) && Enabled(s, ReadInfo(x)) && Apply(s, ReadInfo(x)) == None
  {
    s := PlannedThenFlushed();
    hide Reachable;
    x := Task(V, B, ModelNext);
  }

  /** The job is ended while the worker computes: its output outlives the clearing. */
  lemma EndedWhileComputing() returns (s: System)
    ensures Reachable(s) && s.coord == Both([TAKEN, OPEN], 0, Some(0))
    ensures s.locals == map[W := Local(A, Some(FIRST), Free)]
  {
    s := FirstBatch();
    hide Reachable, Enabled, Apply;
    s := Moves(s, W, EndJobClear(W));
    s := Moves(s, W, FinishBatch(W, []));
  }

  /** An output travels under no job: the job id is forgotten while the worker builds the next request. */
  lemma UntaggedHappens() returns (s: System, req: Request)
    ensures Reachable(s) && req in s.sent
    ensures req.jobId == NO_JOB && req.output == Some(FIRST) && FIRST.job in s.coord.jobs
  {
    s := EndedWhileComputing();
    hide Reachable, Enabled, Apply;
    s := Moves(s, W, CheckJob(W));
    s := Moves(s, W, EndJobForget(W));
    s := Moves(s, W, ReadJob(W));
    s := Sends(s, W);
    req := Request(NO_JOB, W, Some(FIRST));
  }
}
