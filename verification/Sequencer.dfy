/** Write sequences over any run of joins, failures and FetchSequence calls (sdfs/service.go, ring/service.go):
    the member that joined first leads and numbers the writes. */
module Sequencers {
  import opened Api
  import opened RingServers

  const INT32_MAX: nat := 0x7FFF_FFFF

  /** The conversion to a 32-bit count, which wraps around: the one number of that range that differs from n by a
      multiple of two to the 32. */
  function Int32(n: nat): (c: int)
    ensures -2147483648 <= c <= 2147483647 && (n - c) % 4294967296 == 0
    ensures n <= INT32_MAX ==> c == n
    ensures n == INT32_MAX + 1 ==> c < 0
  {
    var low := n % 0x1_0000_0000;
    if low <= INT32_MAX then low else low - 0x1_0000_0000
  }

  /** One sequence handed out: by whom, and the server's counter at that moment. */
  datatype Ticket = Ticket(leader: Process, counter: nat) {
    function Stamp(): Sequence {
      Sequence(leader.joinTime, Int32(counter))
    }
  }

  /** The agreed membership, the counters of the members that handed out something, and all tickets in order. */
  datatype State = State(members: set<Process>, counters: map<Process, nat>, issued: seq<Ticket>)

  datatype Step = Join(p: Process) | Fail(failed: set<Process>) | Fetch(leader: Process) | Refuse

  function Counter(s: State, p: Process): nat {
    if p in s.counters then s.counters[p] else 0
  }

  ghost predicate IsLeader(s: State, p: Process) {
    p in s.members && forall q :: q in s.members && q != p ==> Earlier(p, q)
  }

  ghost predicate Enabled(s: State, step: Step) {
    match step
    case Join(p) => forall q :: q in s.members ==> Earlier(q, p)
    case Fail(failed) => exists q :: q in s.members && q !in failed
    case Fetch(leader) => IsLeader(s, leader)
    case Refuse => true
  }

  ghost function Apply(s: State, step: Step): State {
    match step
    case Join(p) => s.(members := s.members + {p})
    case Fail(failed) => s.(members := s.members - failed)
    case Fetch(leader) =>
      var counter := Counter(s, leader) + 1;
      s.(counters := s.counters[leader := counter], issued := s.issued + [Ticket(leader, counter)])
    // a leader whose ring has not settled answers without a sequence
    case Refuse => s
  }

  /** The first process starts the ring. */
  ghost predicate Init(s: State) {
    |s.members| == 1 && s.counters == map[] && s.issued == []
  }

  // ---- What every step keeps ----

  /** a was handed out before b: by an earlier leader, or by the same one with a smaller counter. */
  predicate Before(a: Ticket, b: Ticket) {
    Earlier(a.leader, b.leader) || (a.leader == b.leader && a.counter < b.counter)
  }

  ghost predicate Ordered(ts: seq<Ticket>) {
    forall i, j :: 0 <= i < j < |ts| ==> Before(ts[i], ts[j])
  }

  /** Counters start at one and skip nothing. */
  ghost predicate Dense(ts: seq<Ticket>) {
    forall t :: t in ts ==> t.counter >= 1 && (t.counter > 1 ==> Ticket(t.leader, t.counter - 1) in ts)
  }

  ghost predicate Inv(s: State) {
    && s.members != {}
    && (forall p, q :: p in s.members && q in s.members && p != q ==> p.joinTime != q.joinTime)
    && (forall t, m :: t in s.issued && m in s.members ==> t.leader == m || Earlier(t.leader, m))
    && Counted(s)
    && Ordered(s.issued) && Dense(s.issued)
  }

  /** A member's counter is the number of its latest ticket. */
  ghost predicate Counted(s: State) {
    && (forall t :: t in s.issued ==> t.counter <= Counter(s, t.leader))
    && (forall p :: p in s.counters ==> s.counters[p] >= 1 && Ticket(p, s.counters[p]) in s.issued)
  }

  lemma FetchKeeps(s: State, leader: Process)
    requires Inv(s) && IsLeader(s, leader)
    ensures Inv(Apply(s, Fetch(leader)))
  {
    FetchOrdered(s, leader);
    FetchDense(s, leader);
    FetchCounted(s, leader);
    hide Ordered, Dense, Counted;
  }

  lemma FetchCounted(s: State, leader: Process)
    requires Counted(s)
    ensures Counted(Apply(s, Fetch(leader)))
  {
    var ts, last := s.issued, Ticket(leader, Counter(s, leader) + 1);
    assert (ts + [last])[|ts|] == last && forall t :: t in ts + [last] <==> t in ts || t == last;
  }

  lemma FetchOrdered(s: State, leader: Process)
    requires Inv(s) && IsLeader(s, leader)
    ensures Ordered(Apply(s, Fetch(leader)).issued)
  {
    var ts, last := s.issued, Ticket(leader, Counter(s, leader) + 1);
    forall i | 0 <= i < |ts|
      ensures Before(ts[i], last)
    {
      assert ts[i] in ts;
    }
    hide Dense, Before;
  }

  lemma FetchDense(s: State, leader: Process)
    requires Inv(s)
    ensures Dense(Apply(s, Fetch(leader)).issued)
  {
    hide Ordered;
    var last := Ticket(leader, Counter(s, leader) + 1);
    assert last.counter > 1 ==> Ticket(leader, last.counter - 1) in s.issued;
    assert forall t :: t in s.issued + [last] <==> t in s.issued || t == last;
  }

  lemma StepKeeps(s: State, step: Step)
    requires Inv(s) && Enabled(s, step)
    ensures Inv(Apply(s, step))
  {
    match step
    case Join(p) =>
      forall t | t in s.issued
        ensures Earlier(t.leader, p)
      {
        var m :| m in s.members;
        assert Earlier(m, p);
      }
    case Fail(failed) =>
      var q :| q in s.members && q !in failed;
      assert q in Apply(s, step).members;
    case Fetch(leader) => FetchKeeps(s, leader);
    case Refuse =>
  }

  // ---- Runs ----

  ghost predicate IsRun(trace: seq<State>, steps: seq<Step>) {
    && |trace| == |steps| + 1 && Init(trace[0])
    && forall i :: 0 <= i < |steps| ==> Enabled(trace[i], steps[i]) && trace[i + 1] == Apply(trace[i], steps[i])
  }

  lemma {:induction false} RunInv(trace: seq<State>, steps: seq<Step>, i: nat)
    requires IsRun(trace, steps) && i < |trace|
    ensures Inv(trace[i])
  {
    if i == 0 {
      forall p, q | p in trace[0].members && q in trace[0].members
        ensures p == q
      {
        SubsetCardinality({p, q}, trace[0].members);
      }
    } else {
      RunInv(trace, steps, i - 1);
      StepKeeps(trace[i - 1], steps[i - 1]);
    }
  }

  /** The sequences handed out so far, as the clients see them, are strictly increasing. */
  ghost predicate Increasing(ts: seq<Ticket>) {
    forall i, j :: 0 <= i < j < |ts| ==> ts[i].Stamp().Less(ts[j].Stamp())
  }

  ghost predicate WithinInt32(ts: seq<Ticket>) {
    forall t :: t in ts ==> t.counter <= INT32_MAX
  }

  lemma {:induction false} EarlierCounter(ts: seq<Ticket>, t: Ticket, n: nat)
    requires Dense(ts) && t in ts && 1 <= n <= t.counter
    ensures Ticket(t.leader, n) in ts
    decreases t.counter
  {
    if n < t.counter {
      EarlierCounter(ts, Ticket(t.leader, t.counter - 1), n);
    }
  }

  lemma WrapBreaks(ts: seq<Ticket>, t: Ticket)
    requires Ordered(ts) && Dense(ts) && t in ts && t.counter > INT32_MAX
    ensures !Increasing(ts)
  {
    EarlierCounter(ts, t, INT32_MAX);
    EarlierCounter(ts, t, INT32_MAX + 1);
    var i :| 0 <= i < |ts| && ts[i] == Ticket(t.leader, INT32_MAX);
    var j :| 0 <= j < |ts| && ts[j] == Ticket(t.leader, INT32_MAX + 1);
    assert !ts[i].Stamp().Less(ts[j].Stamp());
  }

  lemma OrderedIncreasing(ts: seq<Ticket>)
    requires Ordered(ts) && WithinInt32(ts)
    ensures Increasing(ts)
  {
    forall i, j | 0 <= i < j < |ts|
      ensures ts[i].Stamp().Less(ts[j].Stamp())
    {
      assert Before(ts[i], ts[j]) && ts[i] in ts && ts[j] in ts;
    }
  }

  /** Over every run, across any leader changes, the sequences are strictly increasing exactly as long as no
      leader's counter has left the 32-bit range of the count. */
  lemma SequencesIncrease(trace: seq<State>, steps: seq<Step>, i: nat)
    requires IsRun(trace, steps) && i < |trace|
    ensures Increasing(trace[i].issued) <==> WithinInt32(trace[i].issued)
  {
    RunInv(trace, steps, i);
    var ts := trace[i].issued;
    if WithinInt32(ts) {
      OrderedIncreasing(ts);
    } else {
      var t :| t in ts && t.counter > INT32_MAX;
      WrapBreaks(ts, t);
    }
  }

  /** Every count is reached: one leader that is asked often enough. */
  lemma {:induction false} EveryCount(p: Process, n: nat) returns (trace: seq<State>, steps: seq<Step>)
    ensures IsRun(trace, steps) && |steps| == n
    ensures trace[n].members == {p} && Counter(trace[n], p) == n && (n > 0 ==> Ticket(p, n) in trace[n].issued)
  {
    if n == 0 {
      trace, steps := [State({p}, map[], [])], [];
    } else {
      var t, ss := EveryCount(p, n - 1);
      var s := t[n - 1];
      trace, steps := t + [Apply(s, Fetch(p))], ss + [Fetch(p)];
      assert IsLeader(s, p) && Enabled(s, Fetch(p));
      hide Enabled, Apply, Init;
      forall i | 0 <= i < n
        ensures Enabled(trace[i], steps[i]) && trace[i + 1] == Apply(trace[i], steps[i])
      {
        if i < n - 1 {
          assert trace[i] == t[i] && trace[i + 1] == t[i + 1] && steps[i] == ss[i];
        }
      }
    }
  }

  /** So there are runs in which the sequences stop increasing. */
  lemma WrapHappens(p: Process) returns (trace: seq<State>, steps: seq<Step>)
    ensures IsRun(trace, steps) && !Increasing(trace[|steps|].issued)
  {
    trace, steps := EveryCount(p, INT32_MAX + 1);
    SequencesIncrease(trace, steps, |steps|);
  }

  // ---- Who can lead ----

  ghost predicate Takes(step: Step, p: Process) {
    step.Fail? && p in step.failed
  }

  /** p is a member since state j. */
  ghost predicate Since(trace: seq<State>, steps: seq<Step>, j: nat, i: nat, p: Process)
    requires j <= i <= |steps| < |trace|
  {
    && (if j == 0 then p in trace[0].members else steps[j - 1] == Join(p))
    && forall t :: j <= t < i ==> !Takes(steps[t], p)
  }

  ghost predicate MemberNow(trace: seq<State>, steps: seq<Step>, i: nat, p: Process)
    requires i <= |steps| < |trace|
  {
    exists j :: 0 <= j <= i && Since(trace, steps, j, i, p)
  }

  /** Over every run the members are exactly those that started the ring or joined it and have not failed since. */
  lemma {:induction false} MembersExactly(trace: seq<State>, steps: seq<Step>, i: nat, p: Process)
    requires IsRun(trace, steps) && i < |trace|
    ensures p in trace[i].members <==> MemberNow(trace, steps, i, p)
  {
    if i == 0 {
      assert Since(trace, steps, 0, 0, p) <==> p in trace[0].members;
    } else {
      var t := i - 1;
      MembersExactly(trace, steps, t, p);
      assert trace[t + 1] == Apply(trace[t], steps[t]);
      assert p in trace[i].members <==> steps[t] == Join(p) || (p in trace[t].members && !Takes(steps[t], p));
      hide IsRun, Apply, Takes;
      SinceMore(trace, steps, t, i, p);
    }
  }

  lemma SinceMore(trace: seq<State>, steps: seq<Step>, i: nat, n: nat, p: Process)
    requires i < |steps| < |trace| && n == i + 1
    ensures MemberNow(trace, steps, n, p)
       <==> steps[i] == Join(p) || (MemberNow(trace, steps, i, p) && !Takes(steps[i], p))
  {
    if j :| 0 <= j <= n && Since(trace, steps, j, n, p) {
      assert j <= i ==> Since(trace, steps, j, i, p);
    }
    if steps[i] == Join(p) {
      assert Since(trace, steps, n, n, p);
    } else if !Takes(steps[i], p) {
      if j :| 0 <= j <= i && Since(trace, steps, j, i, p) {
        assert Since(trace, steps, j, n, p);
      }
    }
  }

  /** Leaders do change: the first member leads until it fails, and then the next one numbers the writes from one on. */
  lemma LeaderChanges(p: Process, q: Process) returns (trace: seq<State>, steps: seq<Step>)
    requires Earlier(p, q)
    ensures IsRun(trace, steps) && trace[|steps|].issued == [Ticket(p, 1), Ticket(q, 1)]
  {
    var s0 := State({p}, map[], []);
    var s1, s2 := Apply(s0, Join(q)), Apply(Apply(s0, Join(q)), Fetch(p));
    var s3 := Apply(s2, Fail({p}));
    assert s1.members == {p, q} && s3.members == {q};
    assert IsLeader(s1, p) && IsLeader(s3, q);
    assert q in s2.members && q !in {p};
    trace, steps := [s0, s1, s2, s3, Apply(s3, Fetch(q))], [Join(q), Fetch(p), Fail({p}), Fetch(q)];
  }
}
