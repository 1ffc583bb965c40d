/** The coordinator as the program runs it: fields updated in place by loops, each method proved to make
    the step of module CoordinatorState (idunno/scheduler.go, idunno/coordinator.go, api/job.go). */
module Schedulers {
  import opened Api
  import opened CoordinatorState
  import opened CoordinatorInv
  import opened CoordinatorEffects
  import opened GlobalRalloc
  import opened LocalRalloc
  import Sorting

  // ---- Splitting a dataset into batches ----

  /** The pieces of a text between separators; a text without separator is one piece. */
  function Pieces(text: string, sep: char): (ps: seq<string>)
    ensures ps != []
    ensures forall k :: 0 <= k < |ps| ==> sep !in ps[k]
  {
    if text == [] then [[]]
    else
      var rest := Pieces(text[1..], sep);
      if text[0] == sep then [[]] + rest else [[text[0]] + rest[0]] + rest[1..]
  }

  function Joined(ps: seq<string>, sep: char): string {
    if ps == [] then [] else if |ps| == 1 then ps[0] else ps[0] + [sep] + Joined(ps[1..], sep)
  }

  /** Nothing of a dataset is lost by splitting it. */
  lemma {:induction false} PiecesJoin(text: string, sep: char)
    ensures Joined(Pieces(text, sep), sep) == text
  {
    if text != [] {
      PiecesJoin(text[1..], sep);
      var rest, ps := Pieces(text[1..], sep), Pieces(text, sep);
      if text[0] == sep {
        assert ps[1..] == rest;
      } else {
        assert ps[1..] == rest[1..];
      }
    }
  }

  /** Rounding up. */
  function Ceil(x: real): (c: int)
    ensures x <= c as real < x + 1.0
  {
    -(-x).Floor
  }

  /** How many batches of a size it takes to cut n inputs. */
  function BatchCount(n: nat, size: nat): nat
    requires size > 0
  {
    if n <= size then (if n == 0 then 0 else 1) else 1 + BatchCount(n - size, size)
  }

  lemma {:induction false} BatchCountBounds(n: nat, size: nat)
    requires size > 0
    ensures n <= BatchCount(n, size) * size < n + size
  {
    if n > size {
      BatchCountBounds(n - size, size);
      assert BatchCount(n, size) * size == BatchCount(n - size, size) * size + size;
    }
  }

  /** The number of queries a job announces is the number of its batches. */
  lemma CeilIsBatchCount(n: nat, size: nat)
    requires size > 0
    ensures Ceil(n as real / size as real) == BatchCount(n, size)
  {
    BatchCountBounds(n, size);
    hide BatchCount;
    QuotientBounds(n as real / size as real, BatchCount(n, size), n, size);
  }

  lemma QuotientBounds(q: real, c: nat, n: nat, size: nat)
    requires size > 0 && q * size as real == n as real && n <= c * size < n + size
    ensures Ceil(q) == c
  {
    RealProduct(c, size);
    var k := c * size;
    Between(q, c as real, size as real, n as real, k as real);
    CeilUnique(q, c);
  }

  lemma {:induction false} RealProduct(c: nat, size: nat)
    ensures (c * size) as real == c as real * size as real
  {
    if c > 0 {
      RealProduct(c - 1, size);
      assert c * size == (c - 1) * size + size;
      assert c as real * size as real == (c - 1) as real * size as real + size as real;
    }
  }

  lemma Between(q: real, x: real, d: real, n: real, k: real)
    requires d > 0.0 && n == q * d && k == x * d && n <= k < n + d
    ensures q <= x < q + 1.0
  {
    ProductSign(x - q, d, k - n);
    ProductSign(x - q - 1.0, d, k - n - d);
  }

  lemma ProductSign(y: real, d: real, p: real)
    requires d > 0.0 && p == y * d
    ensures y < 0.0 ==> p < 0.0
    ensures y >= 0.0 ==> p >= 0.0
  {
  }

  lemma CeilUnique(q: real, c: int)
    requires q <= c as real < q + 1.0
    ensures Ceil(q) == c
  {
  }

  function AllInputs(bs: seq<Batch>): seq<string> {
    if bs == [] then [] else AllInputs(bs[..|bs| - 1]) + bs[|bs| - 1].inputs
  }

  /** The inputs before position i are cut; past the end means all of them. */
  ghost predicate Cut(inputs: seq<string>, size: nat, bs: seq<Batch>, i: nat)
    requires size > 0
  {
    && |bs| + BatchCount(|inputs| - Min(i, |inputs|), size) == BatchCount(|inputs|, size)
    && AllInputs(bs) == inputs[..Min(i, |inputs|)]
    && (forall k :: 0 <= k < |bs| ==> 0 < |bs[k].inputs| <= size && bs[k].status == Available && bs[k].output.None?)
    && (forall k :: 0 <= k < |bs| && (k < |bs| - 1 || i <= |inputs|) ==> |bs[k].inputs| == size)
  }

  lemma CutNext(inputs: seq<string>, size: nat, bs: seq<Batch>, i: nat, b: Batch)
    requires size > 0 && i < |inputs| && Cut(inputs, size, bs, i)
    requires b == Batch(inputs[i..Min(i + size, |inputs|)], Available, None)
    ensures Cut(inputs, size, bs + [b], i + size)
  {
    assert (bs + [b])[..|bs|] == bs;
    assert inputs[..i] + b.inputs == inputs[..Min(i + size, |inputs|)];
  }

  /** Batches of batchSize inputs in order, the last one possibly shorter: together exactly the inputs. */
  method SplitInputs(inputs: seq<string>, batchSize: nat) returns (bs: seq<Batch>)
    requires batchSize > 0
    ensures |bs| == BatchCount(|inputs|, batchSize)
    ensures AllInputs(bs) == inputs
    ensures forall k :: 0 <= k < |bs| ==> 0 < |bs[k].inputs| <= batchSize
    ensures forall k :: 0 <= k < |bs| - 1 ==> |bs[k].inputs| == batchSize
    ensures inputs != [] ==> Fresh(bs)
  {
    bs := [];
    var i := 0;
    while i < |inputs|
      invariant 0 <= i && Cut(inputs, batchSize, bs, i)
    {
      var end := Min(i + batchSize, |inputs|);
      CutNext(inputs, batchSize, bs, i, Batch(inputs[i..end], Available, None));
      hide Cut;
      bs := bs + [Batch(inputs[i..end], Available, None)];
      i := i + batchSize;
    }
  }

  // ---- Workers by job ----

  ghost function On(ws: map<string, Worker>, id: string): set<string> {
    set a | a in ws && ws[a].jobId == id
  }

  function LastHeard(ws: map<string, Worker>, a: string): int {
    if a in ws then ws[a].lastQueryTime else 0
  }

  /** Most recently heard from first. */
  function Later(ws: map<string, Worker>): (string, string) -> bool {
    (a: string, b: string) => LastHeard(ws, a) > LastHeard(ws, b)
  }

  /** A choice of workers to let go so that a job keeps at most n: those heard from last. Which ones among equals
      is open. */
  ghost predicate LetGo(ws: map<string, Worker>, id: string, n: nat, freed: set<string>) {
    && freed <= On(ws, id)
    && |freed| == |On(ws, id)| - Min(|On(ws, id)|, n)
    && (forall r, k :: r in freed && k in On(ws, id) - freed ==> ws[r].lastQueryTime >= ws[k].lastQueryTime)
  }

  ghost predicate AllFit(s: State, freed: set<string>) {
    forall a :: a in freed && a in s.workers ==> Fits(s, s.workers[a])
  }

  /** One choice per job, for the first jobs. */
  ghost predicate LetGoEach(ws: map<string, Worker>, ids: seq<string>, alloc: seq<int>, freed: seq<set<string>>) {
    && |freed| <= |ids| == |alloc|
    && forall i :: 0 <= i < |freed| ==> alloc[i] >= 0 && LetGo(ws, ids[i], alloc[i], freed[i])
  }

  ghost function Counts(ws: map<string, Worker>, ids: seq<string>): (cs: seq<int>)
    ensures |cs| == |ids| && forall i :: 0 <= i < |ids| ==> cs[i] == |On(ws, ids[i])|
  {
    seq(|ids|, i requires 0 <= i < |ids| => |On(ws, ids[i])|)
  }

  /** Workers left over from jobs that are no longer scheduled. */
  ghost function Stale(ws: map<string, Worker>, ids: seq<string>): set<string> {
    set a | a in ws && ws[a].jobId != NO_JOB && ws[a].jobId !in ids
  }

  /** After the worker refresh nobody is left over: the schedules below then conserve every worker. */
  lemma RefreshLeavesNoStale(s: State, ids: seq<string>, now: int)
    requires Elements(ids) == s.active
    ensures Stale(RefreshWorkers(s, now).workers, ids) == {}
  {
    assert forall id :: id in ids <==> id in Elements(ids);
  }

  /** Every worker is idle, on one of the jobs, or stale. */
  lemma {:induction false} WorkersPartition(ws: map<string, Worker>, ids: seq<string>)
    requires NoDuplicates(ids) && NO_JOB !in ids
    ensures |ws| == |On(ws, NO_JOB)| + Sum(Counts(ws, ids)) + |Stale(ws, ids)|
  {
    if ids == [] {
      assert ws.Keys == On(ws, NO_JOB) + Stale(ws, ids);
      assert Counts(ws, ids) == [];
    } else {
      var n := |ids| - 1;
      WorkersPartition(ws, ids[..n]);
      assert Counts(ws, ids)[..n] == Counts(ws, ids[..n]);
      StaleSplit(ws, ids);
    }
  }

  lemma StaleSplit(ws: map<string, Worker>, ids: seq<string>)
    requires NoDuplicates(ids) && NO_JOB !in ids && ids != []
    ensures |Stale(ws, ids[..|ids| - 1])| == |Stale(ws, ids)| + |On(ws, ids[|ids| - 1])|
  {
    var before, id := ids[..|ids| - 1], ids[|ids| - 1];
    assert ids == before + [id] && id !in before;
    assert Stale(ws, before) == Stale(ws, ids) + On(ws, id);
    assert Stale(ws, ids) !! On(ws, id);
  }

  /** What each job still lacks of its allocation. */
  ghost function Needs(ws: map<string, Worker>, ids: seq<string>, alloc: seq<int>): (ns: seq<int>)
    requires |alloc| == |ids|
    ensures |ns| == |ids| && forall i :: 0 <= i < |ids| ==> ns[i] == alloc[i] - Min(|On(ws, ids[i])|, alloc[i])
  {
    seq(|ids|, i requires 0 <= i < |ids| => alloc[i] - Min(|On(ws, ids[i])|, alloc[i]))
  }

  lemma TotalNeeds(ws: map<string, Worker>, ids: seq<string>, alloc: seq<int>)
    requires |alloc| == |ids| && forall i :: 0 <= i < |ids| ==> |On(ws, ids[i])| <= alloc[i]
    ensures Sum(Needs(ws, ids, alloc)) == Sum(alloc) - Sum(Counts(ws, ids))
  {
    hide Sum;
    SumOfDifferences(Needs(ws, ids, alloc), alloc, Counts(ws, ids));
  }

  lemma {:induction false} SumOfDifferences(ds: seq<int>, xs: seq<int>, ys: seq<int>)
    requires |ds| == |xs| == |ys| && forall i :: 0 <= i < |ds| ==> ds[i] == xs[i] - ys[i]
    ensures Sum(ds) == Sum(xs) - Sum(ys)
  {
    if ds != [] {
      var n := |ds| - 1;
      SumOfDifferences(ds[..n], xs[..n], ys[..n]);
    }
  }

  function Assigned(schedule: map<string, seq<string>>, id: string): seq<string> {
    if id in schedule then schedule[id] else []
  }

  /** All scheduled workers, job after job. */
  function Dealt(schedule: map<string, seq<string>>, ids: seq<string>): seq<string> {
    if ids == [] then [] else Dealt(schedule, ids[..|ids| - 1]) + Assigned(schedule, ids[|ids| - 1])
  }

  lemma {:induction false} DealtSame(schedule: map<string, seq<string>>, schedule': map<string, seq<string>>,
                                     ids: seq<string>)
    requires forall id :: id in ids ==> Assigned(schedule, id) == Assigned(schedule', id)
    ensures Dealt(schedule, ids) == Dealt(schedule', ids)
  {
    if ids != [] {
      DealtSame(schedule, schedule', ids[..|ids| - 1]);
    }
  }

  // ---- What the allocators see of the jobs ----

  predicate AllPositive(xs: seq<real>) {
    forall i :: 0 <= i < |xs| ==> xs[i] > 0.0
  }

  /** The jobs have queries, and no more are completed than there are. */
  predicate Countable(jobs: map<string, Job>, ids: seq<string>) {
    forall i :: 0 <= i < |ids| ==>
      ids[i] in jobs && 0 <= jobs[ids[i]].completedQueries <= jobs[ids[i]].totalQueries && 0 < jobs[ids[i]].totalQueries
  }

  /** Every active job is countable, in every reachable state. */
  lemma JobsCountable(s: State, ids: seq<string>)
    requires JobsInv(s) && Elements(ids) <= s.active
    ensures Countable(s.jobs, ids) && NO_JOB !in s.active
  {
    forall i | 0 <= i < |ids|
      ensures ids[i] in s.jobs && JobOk(s.jobs[ids[i]], ids[i])
    {
      assert ids[i] in Elements(ids);
    }
  }

  /** The jobs' own counts, and the time since they started. */
  function StatsOf(jobs: map<string, Job>, ids: seq<string>, elapsed: seq<real>): (stats: seq<JobStats>)
    requires Countable(jobs, ids) && |elapsed| == |ids| && AllPositive(elapsed)
    ensures |stats| == |ids| && AllRunning(stats)
  {
    seq(|ids|, i requires 0 <= i < |ids| =>
      JobStats(jobs[ids[i]].totalQueries, jobs[ids[i]].completedQueries, elapsed[i]))
  }

  /** The allocation read back from the table of the jobs' expected rates. */
  ghost function GlobalShares(jobs: map<string, Job>, ids: seq<string>, elapsed: seq<real>, m: nat): seq<nat>
    requires Countable(jobs, ids) && |elapsed| == |ids| > 0 && AllPositive(elapsed)
  {
    Rebuild(QPSOf(StatsOf(jobs, ids, elapsed), m), m, |ids| - 1, m)
  }

  const QUERY_TIME_LIMIT: real := 6.0

  function AtMost(x: real, limit: real): real {
    if x < limit then x else limit
  }

  /** The time the completed batches took, each at most the limit. */
  function TotalSpan(bs: seq<Batch>, spans: seq<real>): real
    requires |bs| == |spans|
  {
    if bs == [] then 0.0
    else
      var n := |bs| - 1;
      TotalSpan(bs[..n], spans[..n]) + if bs[n].status == Completed then AtMost(spans[n], QUERY_TIME_LIMIT) else 0.0
  }

  /** Each batch has a span; a job counted as begun still has a completed batch. */
  predicate HasTime(job: Job, spans: seq<real>) {
    |spans| == |job.batches| && (job.completedQueries != 0 ==> CompletedCount(job.batches) > 0)
  }

  function TimeOf(job: Job, spans: seq<real>): real
    requires HasTime(job, spans)
  {
    if job.completedQueries == 0 then 1.0 else TotalSpan(job.batches, spans) / CompletedCount(job.batches) as real
  }

  predicate Timed(jobs: map<string, Job>, ids: seq<string>, spans: seq<seq<real>>) {
    |spans| == |ids| && forall i :: 0 <= i < |ids| ==> ids[i] in jobs && HasTime(jobs[ids[i]], spans[i])
  }

  function TimesOf(jobs: map<string, Job>, ids: seq<string>, spans: seq<seq<real>>): (times: seq<real>)
    requires Timed(jobs, ids, spans)
    ensures |times| == |ids|
  {
    seq(|ids|, i requires 0 <= i < |ids| => TimeOf(jobs[ids[i]], spans[i]))
  }

  lemma {:induction false} SpanBounds(bs: seq<Batch>, spans: seq<real>)
    requires |bs| == |spans| && forall i :: 0 <= i < |spans| ==> spans[i] >= 0.0
    ensures 0.0 <= TotalSpan(bs, spans) <= QUERY_TIME_LIMIT * CompletedCount(bs) as real
  {
    if bs != [] {
      SpanBounds(bs[..|bs| - 1], spans[..|bs| - 1]);
    }
  }

  lemma TimeBounds(job: Job, spans: seq<real>)
    requires HasTime(job, spans)
    ensures (forall i :: 0 <= i < |spans| ==> spans[i] >= 0.0) ==> 0.0 <= TimeOf(job, spans) <= QUERY_TIME_LIMIT
  {
    if job.completedQueries != 0 && forall i :: 0 <= i < |spans| ==> spans[i] >= 0.0 {
      SpanBounds(job.batches, spans);
      AverageBounds(TotalSpan(job.batches, spans), CompletedCount(job.batches) as real);
    }
  }

  lemma AverageBounds(total: real, count: real)
    requires count > 0.0 && 0.0 <= total <= QUERY_TIME_LIMIT * count
    ensures 0.0 <= total / count <= QUERY_TIME_LIMIT
  {
    var x := total / count;
    assert x * count == total;
    assert x < 0.0 ==> x * count < 0.0;
    assert x > QUERY_TIME_LIMIT ==> x * count > QUERY_TIME_LIMIT * count;
  }

  /** The time of one query: for equal spans that span, but never more than six seconds, whichever batches are
      completed; one second before the first is. */
  lemma TimeExact(job: Job, spans: seq<real>, span: real)
    requires HasTime(job, spans)
    requires forall i :: 0 <= i < |spans| && job.batches[i].status == Completed ==> spans[i] == span
    ensures job.completedQueries == 0 ==> TimeOf(job, spans) == 1.0
    ensures job.completedQueries != 0 && span <= 6.0 ==> TimeOf(job, spans) == span
    ensures job.completedQueries != 0 && span >= 6.0 ==> TimeOf(job, spans) == 6.0
  {
    if job.completedQueries != 0 {
      var x := if span < 6.0 then span else 6.0;
      EqualSpans(job.batches, spans, span);
      Averages(TotalSpan(job.batches, spans), CompletedCount(job.batches) as real, x);
    }
  }

  lemma Averages(total: real, n: real, x: real)
    requires n > 0.0 && total == x * n
    ensures total / n == x
  {
    assert (total / n - x) * n == 0.0;
  }

  lemma {:induction false} EqualSpans(bs: seq<Batch>, spans: seq<real>, span: real)
    requires |bs| == |spans| && forall i :: 0 <= i < |spans| && bs[i].status == Completed ==> spans[i] == span
    ensures TotalSpan(bs, spans) == (if span < 6.0 then span else 6.0) * CompletedCount(bs) as real
  {
    if bs != [] {
      var n := |bs| - 1;
      EqualSpans(bs[..n], spans[..n], span);
      var x, c := if span < 6.0 then span else 6.0, CompletedCount(bs[..n]) as real;
      assert x * (c + 1.0) == x * c + x;
    }
  }

  /** One more completed batch adds its own span to the total, at most six seconds. */
  lemma SpansAdd(bs: seq<Batch>, spans: seq<real>, b: Batch, span: real)
    requires |bs| == |spans|
    ensures TotalSpan(bs + [b], spans + [span])
         == TotalSpan(bs, spans) + if b.status != Completed then 0.0 else if span <= 6.0 then span else 6.0
  {
    assert (bs + [b])[..|bs|] == bs && (spans + [span])[..|spans|] == spans;
  }

  /** The table the global allocator works on holds, for each job, nothing for no resources, and else the rate at which
      its own queries, completed at its own speed so far, would be done. */
  lemma RatesOfJobs(jobs: map<string, Job>, ids: seq<string>, elapsed: seq<real>, m: nat, i: nat, r: nat)
    requires Countable(jobs, ids) && |elapsed| == |ids| && AllPositive(elapsed) && i < |ids| && r <= m
    ensures var rate, j := QPSOf(StatsOf(jobs, ids, elapsed), m)[i][r], jobs[ids[i]];
            && (r == 0 ==> rate == 0.0)
            && (r > 0 && j.completedQueries == 0 ==>
                  rate * (elapsed[i] * r as real + j.totalQueries as real) == (j.totalQueries * r) as real)
            && (r > 0 && j.completedQueries > 0 ==>
                  rate * elapsed[i] * (j.completedQueries * r + j.totalQueries - j.completedQueries) as real
                  == (j.totalQueries * j.completedQueries * r) as real)
  {
    var stats := StatsOf(jobs, ids, elapsed);
    assert QPSOf(stats, m)[i][r] == ExpectedQPS(stats[i], r);
    if r > 0 {
      RateExact(stats[i], r);
    }
  }

  /** The times the local allocator works on are the jobs' own. */
  lemma TimesOfJobs(jobs: map<string, Job>, ids: seq<string>, spans: seq<seq<real>>, i: nat)
    requires Timed(jobs, ids, spans) && i < |ids|
    ensures var j, time := jobs[ids[i]], TimesOf(jobs, ids, spans)[i];
            && (j.completedQueries == 0 ==> time == 1.0)
            && (j.completedQueries != 0 ==> time * CompletedCount(j.batches) as real == TotalSpan(j.batches, spans[i]))
  {
    var j := jobs[ids[i]];
    if j.completedQueries != 0 {
      var total, n := TotalSpan(j.batches, spans[i]), CompletedCount(j.batches) as real;
      assert total / n * n == total;
    }
  }

  class Scheduler {
    var jobs: map<string, Job>
    var active: set<string>
    var pending: seq<string>
    var completed: set<string>
    var workers: map<string, Worker>

    function View(): State
      reads this
    {
      State(jobs, active, pending, completed, workers)
    }

    constructor ()
      ensures View() == State(map[], {}, [], {}, map[])
    {
      jobs, active, pending, completed, workers := map[], {}, [], {}, map[];
    }

    method AddJob(id: string, job: Job)
      modifies this`jobs, this`active
      ensures View() == CoordinatorState.AddJob(old(View()), id, job)
    {
      jobs := jobs[id := job];
      active := active + {id};
    }

    /** Turn a queued task into a job; the dataset is absent when it could not be fetched. The inputs are its
        lines, and the announced number of queries is the rounded-up quotient, computed apart from the loop that
        cuts the batches. */
    method ProcessQueuedJob(id: string, dataset: Option<string>, batchSize: nat)
      requires batchSize > 0
      modifies this`jobs, this`active
      ensures dataset == None ==> View() == old(View())
      ensures dataset.Some? ==> jobs.Keys == old(jobs).Keys + {id} && active == old(active) + {id}
      ensures dataset.Some? ==> forall x :: x in jobs && x != id ==> jobs[x] == old(jobs)[x]
      ensures dataset.Some? ==>
        && FreshJob(jobs[id]) && JobOk(jobs[id], id)
        && Joined(AllInputs(jobs[id].batches), '\n') == dataset.value
        && (forall k :: 0 <= k < |jobs[id].batches| - 1 ==> |jobs[id].batches[k].inputs| == batchSize)
      ensures Inv(old(View())) && id !in old(jobs) && id != NO_JOB ==> Inv(View()) && OutputsGrow(old(View()), View())
    {
      if dataset == None {
        GrowReflexive(View());
        return;
      }
      var inputs := Pieces(dataset.value, '\n');
      var batches := SplitInputs(inputs, batchSize);
      var job := Job(batches, Ceil(|inputs| as real / batchSize as real), 0);
      PiecesJoin(dataset.value, '\n');
      CeilIsBatchCount(|inputs|, batchSize);
      hide Pieces, Ceil, BatchCount;
      assert FreshJob(job);
      if Inv(View()) && id !in jobs && id != NO_JOB {
        AddJobKeeps(View(), id, job);
      }
      hide Inv, OutputsGrow;
      AddJob(id, job);
    }

    /** A joining worker is idle with nothing in its hands, whatever was known of its address before, and so no
        batch gains a holder. */
    method OnWorkerJoined(a: string, now: int)
      modifies this`workers
      ensures View() == WorkerJoined(old(View()), a, now)
      ensures On(workers, NO_JOB) == On(old(workers), NO_JOB) + {a}
      ensures forall id, b :: Held(View(), id, b) ==> Held(old(View()), id, b)
      ensures JobsInv(old(View())) ==> JobsInv(View())
      ensures Inv(old(View())) ==> Inv(View())
    {
      ghost var s := View();
      workers := workers[a := Worker(NO_JOB, None, now)];
      forall id, b: nat | Held(View(), id, b)
        ensures Held(s, id, b)
      {
        var x :| x in workers && HeldBy(View(), x, id, b);
        assert HeldBy(s, x, id, b);
      }
      if Inv(s) {
        JoinKeeps(s, a, now);
      }
    }

    /** False stands for an index outside the job's batches: exactly a failed worker of an active job with a batch
        number that is none of the job's. Otherwise the worker is gone and its batch is available again. */
    method OnWorkerFailed(a: string) returns (ok: bool)
      requires active <= jobs.Keys && NO_JOB !in active
      modifies this`jobs, this`workers
      ensures ok <==> WorkerFailed(old(View()), a).Some?
      ensures ok ==> View() == WorkerFailed(old(View()), a).value
      ensures !ok <==> a in old(workers) && old(workers)[a].jobId in active && !Fits(old(View()), old(workers)[a])
      ensures ok && a in old(workers) && old(workers)[a].jobId in active && old(workers)[a].curr.Some? ==>
        var id, b := old(workers)[a].jobId, old(workers)[a].curr.value;
        BatchExists(View(), id, b) && jobs[id].batches[b].status == Available
      ensures ok ==> workers.Keys == old(workers).Keys - {a} && SameWorkersBut(old(View()), View(), a)
      ensures ok ==> SameQueues(old(View()), View()) && OnlyReopened(old(View()), View(), WorkOf(old(View()), a))
      ensures ok && JobsInv(old(View())) ==> JobsInv(View()) && OutputsGrow(old(View()), View())
      ensures Inv(old(View())) ==> ok && Inv(View())
    {
      ghost var s := View();
      FailureEffect(s, a);
      hide Inv, JobsInv, OutputsGrow, SameWorkersBut, OnlyReopened, WorkOf;
      if JobsInv(s) {
        LossKeepsJobs(s, a);
      }
      if Inv(s) {
        FailKeeps(s, a);
      }
      if a !in workers {
        return true;
      }
      var failed := workers[a];
      workers := workers - {a};
      if failed.Idle() || failed.curr.None? || failed.jobId !in active {
        return true;
      }
      ok := MakeAvailable(failed.jobId, failed.curr.value);
    }

    method MakeAvailable(id: string, b: nat) returns (ok: bool)
      modifies this`jobs
      ensures ok <==> TryReopen(old(View()), id, b).Some?
      ensures ok ==> View() == TryReopen(old(View()), id, b).value
    {
      if id !in jobs || b >= |jobs[id].batches| {
        return false;
      }
      var bs := jobs[id].batches;
      jobs := jobs[id := jobs[id].(batches := bs[b := bs[b].(status := Available)])];
      return true;
    }

    /** Workers on no active job become idle; those of active jobs are left alone, and so no batch of an active job
        changes hands. */
    method RefreshWorkerStatus(now: int)
      modifies this`workers
      ensures View() == RefreshWorkers(old(View()), now)
      ensures workers.Keys == old(workers).Keys
      ensures forall a :: a in workers ==>
        workers[a] == if old(workers)[a].jobId in active then old(workers)[a] else Worker(NO_JOB, None, now)
      ensures forall id, b :: id in active && id != NO_JOB ==> (Held(View(), id, b) <==> Held(old(View()), id, b))
    {
      WorkerRefreshEffect(View(), now);
      ghost var goal := RefreshWorkers(View(), now).workers;
      var todo := workers.Keys;
      while todo != {}
        invariant todo <= workers.Keys && workers.Keys == old(workers).Keys
        invariant forall a :: a in workers ==> workers[a] == if a in todo then old(workers)[a] else goal[a]
        decreases todo
      {
        var a :| a in todo;
        todo := todo - {a};
        if workers[a].jobId !in active {
          workers := workers[a := Worker(NO_JOB, None, now)];
        }
      }
      assert workers == goal;
    }

    /** Whether some worker of a job is working on a batch. */
    method InProgressOn(id: string, b: nat) returns (found: bool)
      ensures found <==> Held(View(), id, b)
    {
      var todo := workers.Keys;
      while todo != {}
        invariant todo <= workers.Keys
        invariant forall a :: a in workers && a !in todo ==> !HeldBy(View(), a, id, b)
        decreases todo
      {
        var a :| a in todo;
        todo := todo - {a};
        if workers[a].jobId == id && workers[a].curr == Some(b) {
          assert HeldBy(View(), a, id, b);
          return true;
        }
      }
      return false;
    }

    method RefreshedJob(id: string) returns (job: Job)
      requires id in jobs
      ensures job == RefreshJob(View(), id)
    {
      job := jobs[id];
      var bs := job.batches;
      for i := 0 to |bs|
        invariant |job.batches| == |bs| && job == jobs[id].(batches := job.batches)
        invariant forall k :: 0 <= k < |bs| ==>
          job.batches[k] == if k < i then RefreshBatch(View(), id, k, bs[k]) else bs[k]
      {
        if bs[i].status == InProgress {
          var inProgress := InProgressOn(id, i);
          if !inProgress {
            job := job.(batches := job.batches[i := bs[i].(status := Available)]);
          }
        }
      }
      assert job.batches == RefreshJob(View(), id).batches;
    }

    /** Exactly the batches in progress that nobody works on become available. */
    method RefreshBatchStatus()
      requires active <= jobs.Keys
      modifies this`jobs
      ensures View() == RefreshBatches(old(View())) && jobs.Keys == old(jobs).Keys
      ensures forall id, b :: id in jobs && 0 <= b < |jobs[id].batches| ==>
        && b < |old(jobs)[id].batches|
        && jobs[id].batches[b] == if Abandoned(old(View()), id, b) then old(jobs)[id].batches[b].(status := Available)
                                  else old(jobs)[id].batches[b]
    {
      ghost var s := View();
      BatchRefreshEffect(s);
      var todo := active;
      while todo != {}
        invariant todo <= active <= jobs.Keys && jobs.Keys == s.jobs.Keys
        invariant forall id :: id in jobs ==>
          jobs[id] == if id in active && id !in todo then RefreshJob(s, id) else s.jobs[id]
        decreases todo
      {
        var id :| id in todo;
        var job := RefreshedJob(id);
        SameHolders(View(), s, id);
        todo := todo - {id};
        jobs := jobs[id := job];
      }
      assert jobs == RefreshBatches(s).jobs;
    }

    method CompletedBatchCount(bs: seq<Batch>) returns (count: nat)
      ensures count == CompletedCount(bs)
    {
      count := 0;
      for i := 0 to |bs|
        invariant count == CompletedCount(bs[..i])
      {
        assert bs[..i + 1][..i] == bs[..i];
        if bs[i].status == Completed {
          count := count + 1;
        }
      }
      assert bs[..|bs|] == bs;
    }

    /** Store an output and queue the job when it was the last one missing; false stands for an index
        outside the job's batches. */
    method OnReceiveBatchOutput(id: string, a: string, out: Output, now: int) returns (ok: bool)
      requires a in workers && id in active && id in jobs
      modifies this
      ensures ok <==> ReceiveOutput(old(View()), id, a, out, now).Some?
      ensures ok ==> View() == ReceiveOutput(old(View()), id, a, out, now).value
      ensures ok ==> a in workers && id in jobs
      ensures JobOk(old(jobs)[id], id) ==> (ok <==> BatchExists(old(View()), id, out.batch))
      ensures ok && JobOk(old(jobs)[id], id) ==> Stored(old(View()), View(), id, a, out, now)
    {
      hide Stored, JobOk, CompletedCount;
      if JobOk(jobs[id], id) {
        ReceiveEffect(View(), id, a, out, now);
      }
      if out.batch >= |jobs[id].batches| {
        return false;
      }
      var bs := jobs[id].batches;
      bs := bs[out.batch := bs[out.batch].(output := Some(out))];
      bs := bs[out.batch := bs[out.batch].(status := Completed)];
      assert bs ==
        jobs[id].batches[out.batch := jobs[id].batches[out.batch].(output := Some(out), status := Completed)];
      var count := CompletedBatchCount(bs);
      jobs := jobs[id := jobs[id].(batches := bs, completedQueries := count)];
      workers := workers[a := workers[a].(lastQueryTime := now, curr := None)];
      if count < jobs[id].totalQueries {
        return true;
      }
      for i := 0 to |pending|
        invariant id !in pending[..i]
      {
        if pending[i] == id {
          assert id in pending;
          return true;
        }
      }
      assert pending[..|pending|] == pending;
      pending := pending + [id];
      return true;
    }

    /** The first available batch of a job, now in progress. */
    method FetchBatchInput(id: string) returns (b: Option<nat>)
      requires id in jobs
      modifies this`jobs
      ensures b == FirstAvailable(old(jobs)[id].batches)
      ensures jobs == if b.Some? then old(jobs)[id := old(jobs)[id].(batches :=
          SetStatus(old(jobs)[id].batches, b.value, InProgress))] else old(jobs)
    {
      var bs := jobs[id].batches;
      for i := 0 to |bs|
        invariant forall k :: 0 <= k < i ==> bs[k].status != Available
        invariant jobs == old(jobs)
      {
        if bs[i].status == Available {
          jobs := jobs[id := jobs[id].(batches := bs[i := bs[i].(status := InProgress)])];
          return Some(i);
        }
      }
      return None;
    }

    method ValidateInputs(inputs: seq<string>, valid: string -> bool) returns (kept: seq<string>)
      ensures kept == Validated(inputs, valid) && exists at :: KeptAt(inputs, valid, kept, at)
    {
      ghost var at := ValidatedKeeps(inputs, valid);
      kept := [];
      for i := 0 to |inputs|
        invariant kept == Validated(inputs[..i], valid)
      {
        assert inputs[..i + 1][..i] == inputs[..i];
        if valid(inputs[i]) {
          kept := kept + [inputs[i]];
        }
      }
      assert inputs[..|inputs|] == inputs;
    }

    /** The QueryData handler; crashed stands for an index outside the job's batches. */
    method QueryData(req: Request, valid: string -> bool, now: int) returns (response: Response, crashed: bool)
      requires active <= jobs.Keys
      modifies this
      ensures crashed <==> CoordinatorState.QueryData(old(View()), req, valid, now).None?
      ensures !crashed ==> CoordinatorState.QueryData(old(View()), req, valid, now) == Some((View(), response))
    {
      hide ReceiveOutput, Fetch;
      if req.worker !in workers || req.jobId !in active {
        return Refused, false;
      }
      if req.output.Some? {
        var ok := OnReceiveBatchOutput(req.jobId, req.worker, req.output.value, now);
        if !ok {
          return Refused, true;
        }
      }
      if workers[req.worker].jobId != req.jobId {
        return Refused, false;
      }
      if workers[req.worker].Idle() {
        return Refused, false;
      }
      var b := HandOut(req.jobId, req.worker, valid);
      return Granted(b), false;
    }

    method HandOut(id: string, a: string, valid: string -> bool) returns (b: Option<nat>)
      requires id in jobs && a in workers
      modifies this`jobs, this`workers
      ensures (View(), b) == Fetch(old(View()), id, a, valid)
      ensures HandedOver(old(View()), View(), id, a, b, valid)
    {
      FetchEffect(View(), id, a, valid);
      hide HandedOver;
      ghost var was := jobs[id].batches;
      b := FetchBatchInput(id);
      if b.Some? {
        var bs := jobs[id].batches;
        var inputs := ValidateInputs(bs[b.value].inputs, valid);
        bs := bs[b.value := bs[b.value].(inputs := inputs)];
        assert bs == was[b.value := Taken(was[b.value], valid)];
        jobs := jobs[id := jobs[id].(batches := bs)];
        assert jobs == old(jobs)[id := old(jobs)[id].(batches := bs)];
      }
      workers := workers[a := workers[a].(curr := b)];
    }

    /** The workers of a job, in no particular order. */
    method GetWorkersById(id: string) returns (list: seq<string>)
      ensures NoDuplicates(list) && Elements(list) == On(workers, id)
    {
      list := [];
      var todo := workers.Keys;
      while todo != {}
        invariant todo <= workers.Keys && NoDuplicates(list)
        invariant forall a :: a in list <==> a in workers && a !in todo && workers[a].jobId == id
        decreases todo
      {
        var a :| a in todo;
        todo := todo - {a};
        if workers[a].jobId == id {
          list := list + [a];
        }
      }
    }

    method ReleaseWorker(a: string) returns (ok: bool)
      requires a in workers
      modifies this`jobs, this`workers
      ensures ok <==> Release(old(View()), a).Some?
      ensures ok ==> View() == Release(old(View()), a).value
      ensures workers == old(workers)[a := Freed(old(workers)[a])]
    {
      var w := workers[a];
      workers := workers[a := workers[a].(jobId := NO_JOB)];
      if w.curr.None? {
        assert workers == old(workers)[a := Freed(w)];
        return true;
      }
      workers := workers[a := workers[a].(curr := None)];
      assert workers == old(workers)[a := Freed(w)];
      ok := MakeAvailable(w.jobId, w.curr.value);
    }

    /** Let go of the workers a job has beyond its allocation, the most recently heard from first, and reopen the
        batches they were working on. This fails, with an index outside the job's batches, exactly when one of
        them has a batch number that is none of the job's. */
    method TrimJob(id: string, n: nat) returns (ok: bool, ghost freed: set<string>)
      requires id != NO_JOB
      modifies this`jobs, this`workers
      ensures LetGo(old(workers), id, n, freed)
      ensures ok <==> AllFit(old(View()), freed)
      ensures ok ==> View() == ReleasedAll(old(View()), freed)
      ensures ok ==> |On(workers, id)| == Min(|On(old(workers), id)|, n)
      ensures ok ==> forall a :: a in freed && old(workers)[a].curr.Some? ==>
        var b := old(workers)[a].curr.value;
        && BatchExists(View(), id, b) && jobs[id].batches[b].status == Available
        && (HolderInv(old(View())) ==> !Held(View(), id, b))
      ensures ok ==> forall a, x :: a in freed && x in On(workers, id) ==>
        old(workers)[a].lastQueryTime >= old(workers)[x].lastQueryTime
    {
      var list := GetWorkersById(id);
      ghost var unsorted := list;
      list := Sorting.Sort(Later(workers), list);
      Sorting.SamePermutation(list, unsorted);
      Sorting.PermutationKeepsDistinct(list, unsorted);
      assert Elements(list) == On(workers, id);
      var k := if |list| > n then |list| - n else 0;
      freed := Elements(list[..k]);
      FirstAreLetGo(workers, id, n, list, k);
      hide Sorting.Sorted, LetGo, HolderInv, Later;
      assert forall a :: a in list[..k] ==> a in Elements(list);
      ghost var s := View();
      ok := ReleaseAll(list[..k]);
      if ok {
        ReleasedWorkers(s, freed);
        LetGoCount(s.workers, id, n, freed);
        OnAfter(s.workers, workers, freed, id, freed);
        ReopenedBatches(s, id, freed);
      }
    }

    method ReleaseAll(list: seq<string>) returns (ok: bool)
      requires NoDuplicates(list) && forall a :: a in list ==> a in workers
      modifies this`jobs, this`workers
      ensures ok <==> AllFit(old(View()), Elements(list))
      ensures ok ==> View() == ReleasedAll(old(View()), Elements(list))
    {
      hide Release, ReleasedAll, Fits;
      ghost var s := View();
      ReleasedNone(s);
      assert Elements(list[..0]) == {};
      for i := 0 to |list|
        invariant View() == ReleasedAll(s, Elements(list[..i]))
        invariant AllFit(s, Elements(list[..i]))
      {
        ReleasedWorkers(s, Elements(list[..i]));
        assert list[..i + 1] == list[..i] + [list[i]] && list[i] !in list[..i];
        assert Elements(list[..i + 1]) == Elements(list[..i]) + {list[i]};
        ReleasedOneMore(s, Elements(list[..i]), list[i]);
        ok := ReleaseWorker(list[i]);
        if !ok {
          assert list[i] in Elements(list);
          return;
        }
      }
      assert list[..|list|] == list;
      return true;
    }

    /** Trim every job to its allocation, giving up at the first failure. */
    method TrimJobs(ids: seq<string>, alloc: seq<int>) returns (ok: bool, ghost freed: seq<set<string>>)
      requires NoDuplicates(ids) && NO_JOB !in ids
      requires |alloc| == |ids| && forall i :: 0 <= i < |alloc| ==> alloc[i] >= 0
      modifies this`jobs, this`workers
      ensures LetGoEach(old(workers), ids, alloc, freed)
      ensures ok <==> AllFit(old(View()), UnionOf(freed))
      ensures ok ==> |freed| == |ids| && View() == ReleasedAll(old(View()), UnionOf(freed))
    {
      hide LetGo, ReleasedAll, Fits, UnionOf, Release;
      ghost var s := View();
      freed := [];
      UnionOfNothing();
      ReleasedNone(s);
      for i := 0 to |ids|
        invariant |freed| == i && LetGoEach(s.workers, ids, alloc, freed)
        invariant View() == ReleasedAll(s, UnionOf(freed)) && AllFit(s, UnionOf(freed))
      {
        ghost var before := View();
        ghost var some;
        ok, some := TrimJob(ids[i], alloc[i]);
        NextLetGo(s, ids, alloc, freed, some);
        UnionOfMore(freed, some);
        if ok {
          ReleasedTwice(s, UnionOf(freed), some);
        }
        freed := freed + [some];
        if !ok {
          return;
        }
      }
      return true, freed;
    }

    /** Hand the idle workers out to the jobs that lack some, in the order of the jobs. */
    method DealIdle(ids: seq<string>, alloc: seq<int>) returns (schedule: map<string, seq<string>>, short: bool)
      requires NoDuplicates(ids) && |alloc| == |ids|
      requires forall i :: 0 <= i < |ids| ==> 0 <= |On(workers, ids[i])| <= alloc[i]
      ensures NoDuplicates(Dealt(schedule, ids)) && Elements(Dealt(schedule, ids)) <= On(workers, NO_JOB)
      ensures short <==> Sum(Needs(workers, ids, alloc)) > |On(workers, NO_JOB)|
      ensures !short ==> forall i :: 0 <= i < |ids| ==>
        |Assigned(schedule, ids[i])| + |On(workers, ids[i])| == alloc[i]
      ensures |Dealt(schedule, ids)| == Min(Sum(Needs(workers, ids, alloc)), |On(workers, NO_JOB)|)
    {
      var idle := GetWorkersById(NO_JOB);
      DistinctLength(idle);
      ghost var needs := Needs(workers, ids, alloc);
      hide Dealing, On, Needs, NoDuplicates;
      var idx := 0;
      schedule, short := map[], false;
      DealNothing(ids, idle, needs);
      for i := 0 to |ids|
        invariant 0 <= idx <= |idle| && Dealing(schedule, ids[..i], idle, idx, needs[..i], short)
      {
        var count := GetWorkerCountById(ids[i]);
        ghost var before, from := schedule, idx;
        var hand, next, enough := DealHand(idle, idx, count, alloc[i]);
        if hand != [] {
          schedule := schedule[ids[i] := hand];
        }
        DealNext(before, schedule, ids, i, idle, from, next, needs, short, enough);
        idx := next;
        short := short || !enough;
      }
      assert ids[..|ids|] == ids && needs[..|needs|] == needs;
      DealDone(schedule, ids, idle, idx, needs, short);
    }

    /** The next idle workers, as many as are missing or left. */
    method DealHand(idle: seq<string>, from: nat, have: nat, target: int) returns (hand: seq<string>, idx: nat,
                    enough: bool)
      requires from <= |idle| && have <= target
      ensures from <= idx <= |idle| && hand == idle[from..idx]
      ensures idx - from == Min(target - have, |idle| - from)
      ensures enough <==> target - have <= |idle| - from
    {
      var count := have;
      hand, idx := [], from;
      while count < target
        invariant from <= idx <= |idle| && hand == idle[from..idx]
        invariant count - have == idx - from && count <= target
        decreases target - count
      {
        if idx >= |idle| {
          break;
        }
        hand := hand + [idle[idx]];
        count := count + 1;
        idx := idx + 1;
      }
      enough := count == target;
    }

    method GetWorkerCountById(id: string) returns (count: nat)
      ensures count == |On(workers, id)|
    {
      var list := GetWorkersById(id);
      DistinctLength(list);
      return |list|;
    }

    /** Trim the jobs to their allocations and hand out the idle workers. ids lists the active jobs in order,
        alloc what the allocator gives each. The idle workers fall short exactly when the allocation exceeds
        the workers that are idle or on an active job; otherwise every job ends with its allocation, and an
        allocation of all those workers leaves nobody idle. Whoever holds what, this goes through exactly when
        the workers let go hold batches of their jobs. */
    method RefreshSchedule(ids: seq<string>, alloc: seq<int>)
      returns (schedule: map<string, seq<string>>, short: bool, ok: bool, ghost freed: seq<set<string>>)
      requires NoDuplicates(ids) && Elements(ids) == active && NO_JOB !in active
      requires |alloc| == |ids| && forall i :: 0 <= i < |alloc| ==> alloc[i] >= 0
      modifies this`jobs, this`workers
      ensures LetGoEach(old(workers), ids, alloc, freed)
      ensures ok <==> AllFit(old(View()), UnionOf(freed))
      ensures old(workers) == map[] || ids == [] ==> ok && schedule == map[] && View() == old(View())
      ensures ok && old(workers) != map[] && ids != [] ==>
        && |freed| == |ids| && View() == ReleasedAll(old(View()), UnionOf(freed))
        && Conserved(old(workers), workers, ids, alloc, schedule, short)
      ensures Inv(old(View())) ==> ok && Inv(View()) && OutputsGrow(old(View()), View())
    {
      schedule, short, ok, freed := map[], false, true, [];
      ghost var s := View();
      UnionOfNothing();
      assert forall id :: id in ids ==> id in Elements(ids);
      if |workers| == 0 || |ids| == 0 {
        GrowReflexive(s);
        return;
      }
      hide LetGo, ReleasedAll, Fits, UnionOf, Inv, OutputsGrow, Sum, Dealt, Needs, On, Stale, NoDuplicates;
      ok, freed := TrimJobs(ids, alloc);
      SoundSchedule(s, UnionOf(freed));
      if !ok {
        return;
      }
      ReleasedWorkers(s, UnionOf(freed));
      hide Conserved, LetGoEach;
      schedule, short := DealConserving(ids, alloc, s.workers, freed);
    }

    /** Dealing after the trim conserves the workers there were. */
    method DealConserving(ids: seq<string>, alloc: seq<int>, ghost was: map<string, Worker>,
                          ghost freed: seq<set<string>>)
      returns (schedule: map<string, seq<string>>, short: bool)
      requires NoDuplicates(ids) && NO_JOB !in ids && |freed| == |ids| == |alloc|
      requires LetGoEach(was, ids, alloc, freed) && FreedExactly(was, workers, UnionOf(freed))
      ensures Conserved(was, workers, ids, alloc, schedule, short)
    {
      hide LetGoEach, FreedExactly, UnionOf, Sum, Dealt, Assigned, Needs, On, Stale, NoDuplicates, Elements;
      Conservation(was, workers, ids, alloc, freed);
      assert workers.Keys == was.Keys by {
        FreedKeys(was, workers, UnionOf(freed));
      }
      schedule, short := DealIdle(ids, alloc);
      AllDealt(Dealt(schedule, ids), On(workers, NO_JOB));
    }

    /** Global fair time: every worker is on a scheduled job or dealt to one. */
    method ScheduleGlobally(ids: seq<string>, elapsed: seq<real>)
      returns (schedule: map<string, seq<string>>, short: bool, ok: bool, ghost freed: seq<set<string>>)
      requires NoDuplicates(ids) && Elements(ids) == active && ids != [] && workers != map[] && JobsInv(View())
      requires |elapsed| == |ids| && AllPositive(elapsed) && Stale(workers, ids) == {}
      modifies this`jobs, this`workers
      ensures Countable(old(jobs), ids)
      ensures var alloc := GlobalShares(old(jobs), ids, elapsed, |old(workers)|);
        && LetGoEach(old(workers), ids, alloc, freed) && (ok <==> AllFit(old(View()), UnionOf(freed)))
        && (ok ==> forall i :: 0 <= i < |ids| ==> |Assigned(schedule, ids[i])| + |On(workers, ids[i])| == alloc[i])
      ensures ok ==>
        !short && NoDuplicates(Dealt(schedule, ids)) && Elements(Dealt(schedule, ids)) == On(workers, NO_JOB)
      ensures Inv(old(View())) ==> ok && Inv(View()) && OutputsGrow(old(View()), View())
    {
      JobsCountable(View(), ids);
      hide Inv, OutputsGrow, Sum, Dealt, On, LetGoEach, AllFit, ReleasedAll,
        NoDuplicates, JobsInv, Countable, GlobalShares;
      var alloc := GlobalAllocation(ids, elapsed);
      schedule, short, ok, freed := RefreshSchedule(ids, alloc);
    }

    method GlobalAllocation(ids: seq<string>, elapsed: seq<real>) returns (alloc: seq<nat>)
      requires Countable(jobs, ids) && |elapsed| == |ids| > 0 && AllPositive(elapsed)
      ensures |alloc| == |ids| && Sum(alloc) == |workers| && alloc == GlobalShares(jobs, ids, elapsed, |workers|)
    {
      hide Sum, Rebuild, ExpectedQPS, Countable;
      var n := |workers|;
      var qps := JobToQPS(StatsOf(jobs, ids, elapsed), n);
      alloc := GlobalFairTimeRalloc(|ids|, n, qps);
      RebuildSums(qps, n, |ids| - 1, n);
    }

    /** Local fair time: the rounded shares never run short, and leave less than half a worker per job unused. */
    method ScheduleLocally(ids: seq<string>, spans: seq<seq<real>>)
      returns (schedule: map<string, seq<string>>, short: bool, ok: bool, ghost alloc: seq<nat>,
               ghost freed: seq<set<string>>)
      requires NoDuplicates(ids) && Elements(ids) == active && NO_JOB !in active && ids != [] && workers != map[]
      requires Timed(jobs, ids, spans) && Proper(TimesOf(jobs, ids, spans)) && Stale(workers, ids) == {}
      modifies this`jobs, this`workers
      ensures HandedOut(Wanted(TimesOf(old(jobs), ids, spans), |old(workers)|, |ids|), |old(workers)|, alloc)
      ensures LetGoEach(old(workers), ids, alloc, freed) && (ok <==> AllFit(old(View()), UnionOf(freed)))
      ensures ok ==>
        !short && forall i :: 0 <= i < |ids| ==> |Assigned(schedule, ids[i])| + |On(workers, ids[i])| == alloc[i]
      ensures ok ==> NoDuplicates(Dealt(schedule, ids)) && Elements(Dealt(schedule, ids)) <= On(workers, NO_JOB)
      ensures ok ==> 2 * (|On(workers, NO_JOB)| - |Dealt(schedule, ids)|) < |ids|
      ensures Inv(old(View())) ==> ok && Inv(View()) && OutputsGrow(old(View()), View())
    {
      hide Inv, OutputsGrow, Sum, Dealt, On, AllFit, LetGoEach, ReleasedAll, NoDuplicates, HandedOut, Wanted, Proper;
      var n := |workers|;
      var times := ProcessingTimes(ids, spans);
      hide Timed;
      var shares := LocalFairTimeRalloc(times, n);
      alloc := shares;
      schedule, short, ok, freed := RefreshSchedule(ids, shares);
    }

    method ProcessingTimes(ids: seq<string>, spans: seq<seq<real>>) returns (times: seq<real>)
      requires Timed(jobs, ids, spans)
      ensures times == TimesOf(jobs, ids, spans)
    {
      times := [];
      for i := 0 to |ids|
        invariant times == TimesOf(jobs, ids, spans)[..i]
      {
        var time := QueryProcessingTime(jobs[ids[i]], spans[i]);
        times := times + [time];
      }
    }

    /** The average time of a job's completed queries, each counted with at most the limit. */
    method QueryProcessingTime(job: Job, spans: seq<real>) returns (time: real)
      requires HasTime(job, spans)
      ensures time == TimeOf(job, spans)
      ensures (forall i :: 0 <= i < |spans| ==> spans[i] >= 0.0) ==> 0.0 <= time <= QUERY_TIME_LIMIT
    {
      TimeBounds(job, spans);
      if job.completedQueries == 0 {
        return 1.0;
      }
      var bs := job.batches;
      var total, count := 0.0, 0;
      for i := 0 to |bs|
        invariant total == TotalSpan(bs[..i], spans[..i]) && count == CompletedCount(bs[..i])
      {
        assert bs[..i + 1][..i] == bs[..i] && spans[..i + 1][..i] == spans[..i];
        if bs[i].status == Completed {
          total := total + AtMost(spans[i], QUERY_TIME_LIMIT);
          count := count + 1;
        }
      }
      assert bs[..|bs|] == bs && spans[..|bs|] == spans;
      return total / count as real;
    }

    /** The assignment as written, without a look at what the worker does now: jobs and outputs are safe, and the
        holders stay in order exactly when the batch in the worker's hands can be one of the new job. */
    method CommitAssignment(a: string, id: string, now: int)
      modifies this`workers
      ensures View() == Commit(old(View()), a, id, now)
      ensures workers.Keys == old(workers).Keys && SameWorkersBut(old(View()), View(), a)
      ensures a in workers ==> workers[a] == Worker(id, old(workers)[a].curr, now)
      ensures JobsInv(old(View())) ==> JobsInv(View())
      ensures Inv(old(View())) && id != NO_JOB ==> (HolderInv(View()) <==> CommitSafe(old(View()), a, id))
    {
      if Inv(View()) && id != NO_JOB {
        CommitKeepsIff(View(), a, id, now);
      }
      if a in workers {
        workers := workers[a := workers[a].(jobId := id, lastQueryTime := now)];
      }
    }

    /** Process the oldest finished job; written says whether its results reached the file system. */
    method FlushPendingJobs(written: bool, now: int)
      modifies this
      ensures View() == Flush(old(View()), written, {}, now)
      ensures old(pending) != [] ==>
        var id := old(pending)[0];
        && active == old(active) - {id} && jobs == old(jobs)
        && old(pending) == (if written then [id] + pending else pending)
        && completed == old(completed) + (if written then {id} else {})
        && workers.Keys == old(workers).Keys
        && forall a :: a in workers ==>
             workers[a] == if old(workers)[a].jobId == id then Worker(NO_JOB, None, now) else old(workers)[a]
      ensures old(pending) == [] ==> View() == old(View())
    {
      FlushEffect(View(), written, {}, now);
      if pending == [] {
        return;
      }
      var id := pending[0];
      active := active - {id};
      ghost var goal := Flush(old(View()), written, {}, now).workers;
      var todo := workers.Keys;
      while todo != {}
        invariant todo <= workers.Keys && workers.Keys == old(workers).Keys
        invariant forall a :: a in workers ==> workers[a] == if a in todo then old(workers)[a] else goal[a]
        invariant jobs == old(jobs) && active == old(active) - {id} && pending == old(pending)
        invariant completed == old(completed)
        decreases todo
      {
        var a :| a in todo;
        todo := todo - {a};
        if workers[a].jobId == id {
          workers := workers[a := Worker(NO_JOB, None, now)];
        }
      }
      assert workers == goal;
      if !written {
        return;
      }
      pending := pending[1..];
      completed := completed + {id};
    }
  }

  /** The first of the list sorted by last contact are those to let go. */
  lemma FirstAreLetGo(ws: map<string, Worker>, id: string, n: nat, list: seq<string>, k: nat)
    requires NoDuplicates(list) && Elements(list) == On(ws, id) && Sorting.Sorted(Later(ws), list)
    requires k == (if |list| > n then |list| - n else 0)
    ensures LetGo(ws, id, n, Elements(list[..k]))
  {
    SplitAt(list, k);
    DistinctLength(list);
    DistinctLength(list[..k]);
    forall r, x | r in Elements(list[..k]) && x in On(ws, id) - Elements(list[..k])
      ensures ws[r].lastQueryTime >= ws[x].lastQueryTime
    {
      assert r in list && x in list && x in Elements(list[k..]);
      EarlierIsLater(ws, list, k, r, x);
    }
  }

  lemma EarlierIsLater(was: map<string, Worker>, list: seq<string>, k: nat, r: string, x: string)
    requires Sorting.Sorted(Later(was), list) && k <= |list|
    requires r in list[..k] && x in list[k..] && r in was && x in was
    ensures was[r].lastQueryTime >= was[x].lastQueryTime
  {
    var i :| 0 <= i < k && list[..k][i] == r;
    var j :| 0 <= j < |list| - k && list[k..][j] == x;
    assert list[i] == r && list[k + j] == x;
    assert !Later(was)(list[k + j], list[i]);
  }

  lemma SplitAt(list: seq<string>, k: nat)
    requires NoDuplicates(list) && k <= |list|
    ensures Elements(list[k..]) == Elements(list) - Elements(list[..k])
    ensures Elements(list[..k]) <= Elements(list)
  {
    assert list == list[..k] + list[k..];
    assert forall i, j :: 0 <= i < k <= j < |list| ==> list[i] != list[j];
    forall a | a in list[k..]
      ensures a !in list[..k]
    {
      var j :| 0 <= j < |list| - k && list[k..][j] == a;
      assert list[k + j] == a;
    }
  }

  lemma ReleasedWorkers(s: State, freed: set<string>)
    ensures var s' := ReleasedAll(s, freed);
            && s'.workers.Keys == s.workers.Keys && |s'.workers| == |s.workers|
            && forall a :: a in s.workers ==> s'.workers[a] == if a in freed then Freed(s.workers[a]) else s.workers[a]
  {
    var s' := ReleasedAll(s, freed);
    assert s'.workers.Keys == s.workers.Keys;
    assert |s'.workers| == |s'.workers.Keys| && |s.workers| == |s.workers.Keys|;
  }

  /** Workers after some of them were let go. */
  ghost predicate FreedExactly(was: map<string, Worker>, now: map<string, Worker>, freed: set<string>) {
    && now.Keys == was.Keys
    && forall a :: a in was ==> now[a] == if a in freed then Freed(was[a]) else was[a]
  }

  /** What is left of a job when exactly some of its workers were among those let go. */
  lemma OnAfter(was: map<string, Worker>, now: map<string, Worker>, freed: set<string>, id: string, mine: set<string>)
    requires id != NO_JOB && FreedExactly(was, now, freed) && mine <= On(was, id)
    requires forall a :: a in On(was, id) ==> (a in freed <==> a in mine)
    ensures On(now, id) == On(was, id) - mine && |On(now, id)| == |On(was, id)| - |mine|
  {
    forall a
      ensures a in On(now, id) <==> a in On(was, id) - mine
    {
    }
    hide FreedExactly, On;
    assert On(was, id) == On(now, id) + mine && On(now, id) !! mine;
  }

  lemma ReopenedBatches(s: State, id: string, freed: set<string>)
    requires AllFit(s, freed) && freed <= On(s.workers, id)
    ensures var s' := ReleasedAll(s, freed);
            forall a :: a in freed && s.workers[a].curr.Some? ==>
              var b := s.workers[a].curr.value;
              BatchExists(s', id, b) && s'.jobs[id].batches[b].status == Available &&
              (HolderInv(s) ==> !Held(s', id, b))
  {
    hide ReleasedAll, HolderInv;
    forall a | a in freed && s.workers[a].curr.Some?
      ensures var s', b := ReleasedAll(s, freed), s.workers[a].curr.value;
              BatchExists(s', id, b) && s'.jobs[id].batches[b].status == Available &&
              (HolderInv(s) ==> !Held(s', id, b))
    {
      ReleasedBatchesOpen(s, freed, a);
    }
  }

  lemma UnionOfNothing()
    ensures UnionOf<string>([]) == {}
  {
  }

  /** A job's choice made after other jobs were trimmed is one for the original workers. */
  lemma NextLetGo(s: State, ids: seq<string>, alloc: seq<int>, freed: seq<set<string>>, some: set<string>)
    requires NoDuplicates(ids) && NO_JOB !in ids && |freed| < |ids| == |alloc|
    requires LetGoEach(s.workers, ids, alloc, freed) && alloc[|freed|] >= 0
    requires LetGo(ReleasedAll(s, UnionOf(freed)).workers, ids[|freed|], alloc[|freed|], some)
    ensures LetGoEach(s.workers, ids, alloc, freed + [some]) && UnionOf(freed) !! some
    ensures AllFit(ReleasedAll(s, UnionOf(freed)), some) <==> AllFit(s, some)
  {
    var u, id := UnionOf(freed), ids[|freed|];
    var now := ReleasedAll(s, u).workers;
    forall a | a in u
      ensures a in s.workers && s.workers[a].jobId != id
    {
      var i :| 0 <= i < |freed| && a in freed[i];
      assert LetGo(s.workers, ids[i], alloc[i], freed[i]);
    }
    assert On(now, id) == On(s.workers, id);
    assert forall a :: a in On(now, id) ==> now[a] == s.workers[a];
    assert LetGo(s.workers, id, alloc[|freed|], some);
  }

  /** In good order nobody holds a batch that does not exist, so the schedule goes through and keeps it. */
  lemma SoundSchedule(s: State, freed: set<string>)
    ensures Inv(s) ==> AllFit(s, freed) && Inv(ReleasedAll(s, freed)) && OutputsGrow(s, ReleasedAll(s, freed))
  {
    hide OutputsGrow;
    if Inv(s) {
      ReleasedAllKeeps(s, freed);
    }
  }

  /** What a schedule promises about the workers: how the dealing relates to the allocation. */
  ghost predicate Conserved(was: map<string, Worker>, now: map<string, Worker>, ids: seq<string>, alloc: seq<int>,
                            schedule: map<string, seq<string>>, short: bool)
    requires |alloc| == |ids|
  {
    && now.Keys == was.Keys
    && NoDuplicates(Dealt(schedule, ids)) && Elements(Dealt(schedule, ids)) <= On(now, NO_JOB)
    && (short <==> Sum(alloc) > |was| - |Stale(was, ids)|)
    && (!short ==> forall i :: 0 <= i < |ids| ==> |Assigned(schedule, ids[i])| + |On(now, ids[i])| == alloc[i])
    && (!short ==> |On(now, NO_JOB)| - |Dealt(schedule, ids)| == |was| - |Stale(was, ids)| - Sum(alloc))
    && (Sum(alloc) == |was| - |Stale(was, ids)| ==> Elements(Dealt(schedule, ids)) == On(now, NO_JOB))
  }

  /** The first idx idle workers went to the listed jobs in order, each job served in full unless the idle
      workers ran out. */
  ghost predicate Dealing(schedule: map<string, seq<string>>, ids: seq<string>, idle: seq<string>, idx: nat,
                          needs: seq<int>, short: bool) {
    && idx <= |idle| && |needs| == |ids|
    && schedule.Keys <= Elements(ids)
    && Dealt(schedule, ids) == idle[..idx]
    && (if short then idx == |idle| && Sum(needs) > |idle| else idx == Sum(needs))
    && (!short ==> forall j :: 0 <= j < |ids| ==> |Assigned(schedule, ids[j])| == needs[j])
  }

  lemma DealNothing(ids: seq<string>, idle: seq<string>, needs: seq<int>)
    ensures Dealing(map[], ids[..0], idle, 0, needs[..0], false)
  {
  }

  lemma DealNext(before: map<string, seq<string>>, after: map<string, seq<string>>, ids: seq<string>, i: nat,
                 idle: seq<string>, from: nat, idx: nat, needs: seq<int>, short: bool, enough: bool)
    requires NoDuplicates(ids) && i < |ids| && |needs| == |ids| && needs[i] >= 0
    requires from <= idx <= |idle| && Dealing(before, ids[..i], idle, from, needs[..i], short)
    requires after == if from < idx then before[ids[i] := idle[from..idx]] else before
    requires idx - from == Min(needs[i], |idle| - from) && (enough <==> needs[i] <= |idle| - from)
    ensures Dealing(after, ids[..i + 1], idle, idx, needs[..i + 1], short || !enough)
  {
    hide Dealt, Sum, Assigned, NoDuplicates;
    var hand := idle[from..idx];
    HandGiven(before, after, ids, i, hand);
    PrefixSum(needs, i);
    assert idle[..from] + hand == idle[..idx];
    assert forall j :: 0 <= j < i ==> ids[..i][j] == ids[j] && needs[..i][j] == needs[j];
  }

  lemma HandGiven(before: map<string, seq<string>>, after: map<string, seq<string>>, ids: seq<string>, i: nat,
                  hand: seq<string>)
    requires NoDuplicates(ids) && i < |ids| && before.Keys <= Elements(ids[..i])
    requires after == if hand != [] then before[ids[i] := hand] else before
    ensures Dealt(after, ids[..i + 1]) == Dealt(before, ids[..i]) + hand
    ensures after.Keys <= Elements(ids[..i + 1])
    ensures forall j :: 0 <= j < i ==> Assigned(after, ids[j]) == Assigned(before, ids[j])
    ensures Assigned(after, ids[i]) == hand
  {
    assert ids[..i + 1] == ids[..i] + [ids[i]] && ids[i] !in ids[..i];
    hide NoDuplicates;
    HandLast(before, after, ids[..i], ids[i], hand);
    assert forall j :: 0 <= j < i ==> ids[j] in ids[..i];
  }

  lemma HandLast(before: map<string, seq<string>>, after: map<string, seq<string>>, ids: seq<string>, last: string,
                 hand: seq<string>)
    requires last !in ids && before.Keys <= Elements(ids)
    requires after == if hand != [] then before[last := hand] else before
    ensures Dealt(after, ids + [last]) == Dealt(before, ids) + hand
    ensures forall id :: id in ids ==> Assigned(after, id) == Assigned(before, id)
    ensures Assigned(after, last) == hand
  {
    assert (ids + [last])[..|ids|] == ids;
    DealtSame(after, before, ids);
  }

  lemma DealDone(schedule: map<string, seq<string>>, ids: seq<string>, idle: seq<string>, idx: nat, needs: seq<int>,
                 short: bool)
    requires NoDuplicates(idle) && Dealing(schedule, ids, idle, idx, needs, short)
    ensures NoDuplicates(Dealt(schedule, ids)) && Elements(Dealt(schedule, ids)) <= Elements(idle)
    ensures |Dealt(schedule, ids)| == Min(Sum(needs), |idle|)
    ensures short <==> Sum(needs) > |idle|
    ensures |needs| == |ids| && (!short ==> forall j :: 0 <= j < |ids| ==> |Assigned(schedule, ids[j])| == needs[j])
  {
  }

  /** Trimming moves workers from jobs to the idle pool and loses none. */
  lemma Conservation(was: map<string, Worker>, now: map<string, Worker>, ids: seq<string>, alloc: seq<int>,
                     freed: seq<set<string>>)
    requires NoDuplicates(ids) && NO_JOB !in ids && |freed| == |ids|
    requires LetGoEach(was, ids, alloc, freed) && FreedExactly(was, now, UnionOf(freed))
    ensures forall i :: 0 <= i < |ids| ==> |On(now, ids[i])| == Min(|On(was, ids[i])|, alloc[i])
    ensures Sum(Needs(now, ids, alloc)) - |On(now, NO_JOB)| == Sum(alloc) - (|was| - |Stale(was, ids)|)
    ensures |now| == |was|
  {
    forall i | 0 <= i < |ids|
      ensures |On(now, ids[i])| == Min(|On(was, ids[i])|, alloc[i])
    {
      JobKeeps(was, now, ids, alloc, freed, i);
    }
    StaleSame(was, now, ids, alloc, freed);
    hide LetGoEach, FreedExactly, On, Stale, Counts, Needs, Sum, NoDuplicates;
    WorkersPartition(now, ids);
    TotalNeeds(now, ids, alloc);
  }

  lemma LetGoCount(ws: map<string, Worker>, id: string, n: nat, freed: set<string>)
    requires LetGo(ws, id, n, freed)
    ensures freed <= On(ws, id) && |freed| == |On(ws, id)| - Min(|On(ws, id)|, n)
  {
  }

  lemma LetGoAreOn(ws: map<string, Worker>, ids: seq<string>, alloc: seq<int>, freed: seq<set<string>>, i: nat)
    requires LetGoEach(ws, ids, alloc, freed) && i < |freed|
    ensures alloc[i] >= 0 && freed[i] <= On(ws, ids[i])
    ensures |freed[i]| == |On(ws, ids[i])| - Min(|On(ws, ids[i])|, alloc[i])
  {
    hide LetGo;
    LetGoCount(ws, ids[i], alloc[i], freed[i]);
  }

  /** A worker let go is one of the job it was on. */
  lemma OwnJob(ws: map<string, Worker>, ids: seq<string>, alloc: seq<int>, freed: seq<set<string>>, i: nat, a: string)
    requires NoDuplicates(ids) && |freed| == |ids| && i < |ids| && LetGoEach(ws, ids, alloc, freed)
    requires a in On(ws, ids[i])
    ensures a in UnionOf(freed) <==> a in freed[i]
  {
    hide LetGoEach;
    if a in UnionOf(freed) {
      var j :| 0 <= j < |freed| && a in freed[j];
      LetGoAreOn(ws, ids, alloc, freed, j);
    }
  }

  lemma JobKeeps(was: map<string, Worker>, now: map<string, Worker>, ids: seq<string>, alloc: seq<int>,
                 freed: seq<set<string>>, i: nat)
    requires NoDuplicates(ids) && NO_JOB !in ids && |freed| == |ids| && i < |ids|
    requires LetGoEach(was, ids, alloc, freed) && FreedExactly(was, now, UnionOf(freed))
    ensures |alloc| == |ids| && |On(now, ids[i])| == Min(|On(was, ids[i])|, alloc[i])
  {
    assert |alloc| == |ids| && ids[i] != NO_JOB;
    hide LetGoEach, FreedExactly, UnionOf, NoDuplicates, On;
    LetGoAreOn(was, ids, alloc, freed, i);
    forall a | a in On(was, ids[i])
      ensures a in UnionOf(freed) <==> a in freed[i]
    {
      OwnJob(was, ids, alloc, freed, i, a);
    }
    OnAfter(was, now, UnionOf(freed), ids[i], freed[i]);
  }

  lemma StaleSame(was: map<string, Worker>, now: map<string, Worker>, ids: seq<string>, alloc: seq<int>,
                  freed: seq<set<string>>)
    requires NO_JOB !in ids && LetGoEach(was, ids, alloc, freed) && FreedExactly(was, now, UnionOf(freed))
    ensures Stale(now, ids) == Stale(was, ids) && |now| == |was|
  {
    forall a | a in UnionOf(freed)
      ensures a in was && was[a].jobId in ids
    {
      var i :| 0 <= i < |freed| && a in freed[i];
      LetGoAreOn(was, ids, alloc, freed, i);
    }
    assert |now| == |now.Keys| && |was| == |was.Keys|;
  }

  lemma FreedKeys(was: map<string, Worker>, now: map<string, Worker>, freed: set<string>)
    requires FreedExactly(was, now, freed)
    ensures now.Keys == was.Keys
  {
  }

  lemma AllDealt(dealt: seq<string>, idle: set<string>)
    requires NoDuplicates(dealt) && Elements(dealt) <= idle
    ensures |dealt| == |idle| ==> Elements(dealt) == idle
  {
    DistinctLength(dealt);
    SubsetCardinality(Elements(dealt), idle);
  }

  /** Who holds a batch does not depend on the jobs' batch states. */
  lemma SameHolders(s: State, s': State, id: string)
    requires s.workers == s'.workers && id in s.jobs && id in s'.jobs && s.jobs[id] == s'.jobs[id]
    ensures RefreshJob(s, id) == RefreshJob(s', id)
  {
    forall i: nat
      ensures Held(s, id, i) <==> Held(s', id, i)
    {
      assert forall a :: a in s.workers ==> (HeldBy(s, a, id, i) <==> HeldBy(s', a, id, i));
    }
    assert RefreshJob(s, id).batches == RefreshJob(s', id).batches;
  }
}
