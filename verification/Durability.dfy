/** What re-replication keeps of client writes over whole runs: files and versions at all replicas stay there, and a
    successful Put that missed a replica survives as long as a quorum of replicas does not leave. */
module Durability {
  import opened Api
  import opened Placement
  import opened Replication
  import Quorums

  /** Every member that lists f lists version v of it. */
  ghost predicate AllList(s: Cluster, f: string, v: nat) {
    forall p :: p in Holders(s.tables, f) ==> v in s.tables[p][f]
  }

  /** Nothing is asked of f that its replicas may lose: it is not deleted, and changes are coverable for its key. */
  ghost predicate Spares(l: Layout, s: Cluster, step: Step, f: string) {
    && !(step.Delete? && step.file == f)
    && (step.Change? ==>
          var n := After(s, step.joined, step.failed);
          s.now != {} && n != {} && Coverable(l.pos, s.now, n, l.key(f)))
  }

  /** One join, or fewer failures than there are replicas, spares every file. */
  lemma SmallChangesSpare(l: Layout, s: Cluster, step: Step, f: string)
    requires Shape(l, s) && Enabled(l, s, step) && step.Change?
    requires (|step.joined| == 1 && step.failed == {}) || (step.joined == {} && |step.failed| < REPLICA_COUNT)
    ensures Spares(l, s, step, f)
  {
    var k := l.key(f);
    if step.failed == {} && |step.joined| == 1 {
      var p :| p in step.joined;
      SubsetCardinality({p}, step.joined);
      assert step.joined == {p} && After(s, step.joined, step.failed) == s.now + {p};
      JoinCoverable(l.pos, s.now, p, k);
    } else {
      assert After(s, step.joined, step.failed) == s.now - step.failed;
      assert step.failed != s.now;
      FailCoverable(l.pos, s.now, step.failed, k);
    }
  }

  /** All replicas have f, or will when the epoch ends. */
  ghost predicate Durable(l: Layout, s: Cluster, f: string)
    requires Shape(l, s)
  {
    || Covered(l, s, f)
    || (f !in s.touched && Repairable(l.pos, s.was, s.now, l.key(f), Holders(s.start, f)))
  }

  lemma DurableSettled(l: Layout, s: Cluster, f: string)
    requires Inv(l, s) && Durable(l, s, f) && Quiescent(s)
    ensures Covered(l, s, f)
  {
    hide Covered, FileSafe, SendersOk, Quiescent, Repairable, SettledAt;
    if !Covered(l, s, f) {
      Settles(l, s, f);
    }
  }

  lemma CoveredStays(l: Layout, s: Cluster, step: Step, f: string)
    requires Shape(l, s) && Enabled(l, s, step) && !step.Change? && !(step.Delete? && step.file == f)
    requires Covered(l, s, f)
    ensures Covered(l, Apply(l, s, step), f)
  {
    hide Replicas;
    RouteInReplicas(l, s.now, f);
  }

  lemma ChangeDurable(l: Layout, s: Cluster, step: Step, f: string)
    requires Shape(l, s) && Enabled(l, s, step) && step.Change? && Spares(l, s, step, f) && Covered(l, s, f)
    ensures var s' := Apply(l, s, step); Shape(l, s') && Durable(l, s', f)
  {
    var s' := Apply(l, s, step);
    MoreHoldersRepairable(l.pos, s.now, s'.now, l.key(f), ReplicasOf(l, s.now, f) * s'.now, Holders(s'.start, f));
  }

  lemma DurableStep(l: Layout, s: Cluster, step: Step, f: string)
    requires Inv(l, s) && Enabled(l, s, step) && Durable(l, s, f) && Spares(l, s, step, f)
    ensures Inv(l, Apply(l, s, step)) && Durable(l, Apply(l, s, step), f)
  {
    hide Covered, FileSafe, SendersOk, Repairable, ReplicasOf, Spares, CollisionFree;
    StepKeepsInv(l, s, step);
    if Quiescent(s) {
      DurableSettled(l, s, f);
    }
    if step.Change? {
      ChangeDurable(l, s, step, f);
    } else if Covered(l, s, f) {
      assert !(step.Delete? && step.file == f) by {
        SparedNotDeleted(l, s, step, f);
      }
      CoveredStays(l, s, step, f);
    }
  }

  lemma SparedNotDeleted(l: Layout, s: Cluster, step: Step, f: string)
    requires Spares(l, s, step, f)
    ensures !(step.Delete? && step.file == f)
  {
  }

  /** A member gains f only with version v. */
  lemma AllListStep(l: Layout, s: Cluster, step: Step, f: string, v: nat)
    requires Shape(l, s) && Enabled(l, s, step) && AllList(s, f, v)
    requires step.Put? && step.file == f ==> Covered(l, s, f)
    ensures AllList(Apply(l, s, step), f, v)
  {
    hide Replicas;
  }

  lemma {:induction false} DurableRun(l: Layout, trace: seq<Cluster>, steps: seq<Step>, j: nat, i: nat, f: string)
    requires IsRun(l, trace, steps) && j <= i < |trace| && Covered(l, trace[j], f)
    requires forall t :: j <= t < i ==> Spares(l, trace[t], steps[t], f)
    ensures Inv(l, trace[i]) && Durable(l, trace[i], f)
  {
    hide Inv, Spares, Covered, Init, Enabled, Apply, Repairable;
    RunInv(l, trace, steps, i);
    if j < i {
      var t := i - 1;
      DurableRun(l, trace, steps, j, t, f);
      assert Enabled(l, trace[t], steps[t]) && trace[t + 1] == Apply(l, trace[t], steps[t]);
      DurableStep(l, trace[t], steps[t], f);
    }
  }

  /** Durability over every run: once all replicas of a file store it, then, as long as it is not deleted and the
      changes are coverable for its key, some replica stores it in every later state, even in the middle of an epoch,
      and all its replicas do whenever all members are stable. */
  lemma NoFileLost(l: Layout, trace: seq<Cluster>, steps: seq<Step>, j: nat, i: nat, f: string)
    requires IsRun(l, trace, steps) && j <= i < |trace| && Covered(l, trace[j], f)
    requires forall t :: j <= t < i ==> Spares(l, trace[t], steps[t], f)
    ensures Holders(trace[i].tables, f) * ReplicasOf(l, trace[i].now, f) != {}
    ensures Quiescent(trace[i]) ==> Covered(l, trace[i], f)
  {
    DurableRun(l, trace, steps, j, i, f);
    var s := trace[i];
    if Quiescent(s) {
      DurableSettled(l, s, f);
    }
    hide Quiescent;
    if Covered(l, s, f) {
      RouteInReplicas(l, s.now, f);
      assert Route(l.pos, s.now, l.key(f)) in Holders(s.tables, f) * ReplicasOf(l, s.now, f);
    } else {
      MoverIsReplica(l, s, f);
      SurvivesExactly(l, trace, steps, i, f);
    }
  }

  lemma {:induction false} AllListRun(l: Layout, trace: seq<Cluster>, steps: seq<Step>, j: nat, i: nat, f: string,
                                      v: nat)
    requires IsRun(l, trace, steps) && j <= i < |trace| && Covered(l, trace[j], f) && AllList(trace[j], f, v)
    requires forall t :: j <= t < i ==> Spares(l, trace[t], steps[t], f)
    ensures AllList(trace[i], f, v)
  {
    if j < i {
      var t := i - 1;
      AllListRun(l, trace, steps, j, t, f, v);
      NoFileLost(l, trace, steps, j, t, f);
      RunInv(l, trace, steps, t);
      assert Enabled(l, trace[t], steps[t]) && trace[t + 1] == Apply(l, trace[t], steps[t]);
      hide Covered, FileSafe, SendersOk, Spares;
      AllListStep(l, trace[t], steps[t], f, v);
    }
  }

  /** The same for a version: once it is at all replicas, and at every other member that lists the file, it is always
      at some replica, and at all of them whenever all members are stable, whatever newer versions do. */
  lemma NoVersionLost(l: Layout, trace: seq<Cluster>, steps: seq<Step>, j: nat, i: nat, f: string, v: nat)
    requires IsRun(l, trace, steps) && j <= i < |trace| && Covered(l, trace[j], f) && AllList(trace[j], f, v)
    requires forall t :: j <= t < i ==> Spares(l, trace[t], steps[t], f)
    ensures exists p :: p in ReplicasOf(l, trace[i].now, f) && Lists(trace[i], p, f, v)
    ensures Quiescent(trace[i]) ==> forall p :: p in ReplicasOf(l, trace[i].now, f) ==> Lists(trace[i], p, f, v)
  {
    NoFileLost(l, trace, steps, j, i, f);
    AllListRun(l, trace, steps, j, i, f, v);
    hide ReplicasOf;
    var p :| p in Holders(trace[i].tables, f) * ReplicasOf(l, trace[i].now, f);
    assert Lists(trace[i], p, f, v);
  }

  /** A Put that reaches every replica is where that begins. */
  lemma FullPutCovers(l: Layout, s: Cluster, f: string, v: nat)
    requires Shape(l, s) && Quiescent(s)
    ensures var s' := Apply(l, s, Put(f, v, ReplicasOf(l, s.now, f)));
            Covered(l, s', f) && (Holders(s.tables, f) <= ReplicasOf(l, s.now, f) ==> AllList(s', f, v))
  {
    RouteInReplicas(l, s.now, f);
    hide Replicas;
  }

  /** A Delete takes the file from every replica it reached and from nobody else; reaching all, as a successful one
      does, it leaves no replica with it. */
  lemma DeleteClears(l: Layout, s: Cluster, f: string, reached: set<Process>)
    requires Shape(l, s) && Enabled(l, s, Delete(f, reached))
    ensures var s' := Apply(l, s, Delete(f, reached));
            && Holders(s'.tables, f) == Holders(s.tables, f) - reached
            && (forall g :: g != f ==> Holders(s'.tables, g) == Holders(s.tables, g))
            && (forall p, g, v :: g != f ==> (Lists(s', p, g, v) <==> Lists(s, p, g, v)))
            && (|reached| >= Quorums.ConsistencyLevel(Quorums.DeleteTask, |s.now|) ==>
                  Holders(s'.tables, f) * ReplicasOf(l, s.now, f) == {})
  {
    hide Replicas;
    if |reached| >= Quorums.ConsistencyLevel(Quorums.DeleteTask, |s.now|) {
      ReplicaCount(l.pos, s.now, l.key(f), REPLICA_COUNT);
      SubsetCardinality(reached, ReplicasOf(l, s.now, f));
    }
  }

  /** A Put adds its version at every replica it reached, and changes nothing else. */
  lemma PutAdds(l: Layout, s: Cluster, f: string, v: nat, reached: set<Process>)
    requires Shape(l, s) && Enabled(l, s, Put(f, v, reached))
    ensures forall p, g, x :: Lists(Apply(l, s, Put(f, v, reached)), p, g, x) <==>
      Lists(s, p, g, x) || (p in reached && g == f && x == v)
  {
    RouteInReplicas(l, s.now, f);
    hide Replicas;
  }

  // ---- Puts that reach only a quorum ----

  ghost function WriteLevel(m: set<Process>): nat {
    Quorums.ConsistencyLevel(Quorums.PutTask, |m|)
  }

  /** A replica keeps a version as long as it stays a replica and the file is not deleted. */
  lemma ReplicaKeeps(l: Layout, s: Cluster, step: Step, p: Process, f: string, v: nat)
    requires Shape(l, s) && Enabled(l, s, step) && !(step.Delete? && step.file == f) && Lists(s, p, f, v)
    requires p in ReplicasOf(l, s.now, f) && p in ReplicasOf(l, Apply(l, s, step).now, f)
    ensures Lists(Apply(l, s, step), p, f, v)
  {
    assert p in s.now && p in Apply(l, s, step).now;
    hide Replicas;
  }

  lemma {:induction false} ReplicaKeepsRun(l: Layout, trace: seq<Cluster>, steps: seq<Step>, j: nat, i: nat, p: Process,
                                           f: string, v: nat)
    requires IsRun(l, trace, steps) && j <= i < |trace| && Lists(trace[j], p, f, v)
    requires forall t :: j <= t <= i ==> p in ReplicasOf(l, trace[t].now, f)
    requires forall t :: j <= t < i ==> !(steps[t].Delete? && steps[t].file == f)
    ensures Lists(trace[i], p, f, v)
  {
    if j < i {
      var t := i - 1;
      ReplicaKeepsRun(l, trace, steps, j, t, p, f, v);
      RunInv(l, trace, steps, t);
      assert Enabled(l, trace[t], steps[t]) && trace[t + 1] == Apply(l, trace[t], steps[t]);
      ReplicaKeeps(l, trace[t], steps[t], p, f, v);
    }
  }

  /** Those among r that were no replicas of f at some point of a stretch of a run. */
  ghost function Left(l: Layout, trace: seq<Cluster>, j: nat, i: nat, f: string, r: set<Process>): set<Process>
    requires i < |trace|
  {
    set p | p in r && exists t :: j <= t <= i && p !in ReplicasOf(l, trace[t].now, f)
  }

  /** A Put the client reported as successful survives, whatever the changes, until as many of the replicas it reached
      as the write level have left the file's replica set. */
  lemma PutSurvives(l: Layout, trace: seq<Cluster>, steps: seq<Step>, j: nat, i: nat)
    requires IsRun(l, trace, steps) && j < i < |trace| && steps[j].Put?
    requires |steps[j].reached| >= WriteLevel(trace[j].now)
    requires forall t :: j < t < i ==> !(steps[t].Delete? && steps[t].file == steps[j].file)
    requires |Left(l, trace, j + 1, i, steps[j].file, steps[j].reached)| < WriteLevel(trace[j].now)
    ensures var f := steps[j].file;
            exists p :: p in ReplicasOf(l, trace[i].now, f) && Lists(trace[i], p, f, steps[j].version)
  {
    var f, v, r := steps[j].file, steps[j].version, steps[j].reached;
    var left := Left(l, trace, j + 1, i, f, r);
    if r <= left {
      SubsetCardinality(r, left);
    }
    var p :| p in r && p !in left;
    RunInv(l, trace, steps, j);
    PutLists(l, trace[j], f, v, r, p);
    assert trace[j + 1] == Apply(l, trace[j], steps[j]);
    ReplicaKeepsRun(l, trace, steps, j + 1, i, p, f, v);
  }

  lemma PutLists(l: Layout, s: Cluster, f: string, v: nat, r: set<Process>, p: Process)
    requires Shape(l, s) && Enabled(l, s, Put(f, v, r)) && p in r
    ensures Lists(Apply(l, s, Put(f, v, r)), p, f, v)
  {
    RouteInReplicas(l, s.now, f);
    hide Replicas;
  }

  ghost predicate EveryPutSurvives(l: Layout, o: set<Process>, n: set<Process>, f: string) {
    forall r: set<Process> :: r <= ReplicasOf(l, o, f) && |r| >= WriteLevel(o) ==> r * ReplicasOf(l, n, f) != {}
  }

  /** Every successful Put survives a change if and only if the change displaces fewer replicas than the write level. */
  lemma SurvivalExact(l: Layout, o: set<Process>, n: set<Process>, f: string)
    requires o != {}
    ensures EveryPutSurvives(l, o, n, f) <==> |ReplicasOf(l, o, f) - ReplicasOf(l, n, f)| < WriteLevel(o)
  {
    var ro, rn := ReplicasOf(l, o, f), ReplicasOf(l, n, f);
    hide ReplicasOf;
    if |ro - rn| < WriteLevel(o) {
      forall r: set<Process> | r <= ro && |r| >= WriteLevel(o)
        ensures r * rn != {}
      {
        if r * rn == {} {
          assert forall x :: x in r && x in rn ==> x in r * rn;
          SubsetCardinality(r, ro - rn);
        }
      }
    } else {
      var r := ro - rn;
      assert r <= ro && r * rn == {};
    }
  }

  /** In numbers: on three members or more a successful Put survives every change that displaces at most two of its
      file's replicas, and can be lost to one that displaces three; on fewer members it takes them all. */
  lemma SurvivalInNumbers(l: Layout, o: set<Process>, n: set<Process>, f: string)
    requires o != {}
    ensures |o| >= 3 ==> (EveryPutSurvives(l, o, n, f) <==> |ReplicasOf(l, o, f) - ReplicasOf(l, n, f)| <= 2)
    ensures |o| < 3 ==> (EveryPutSurvives(l, o, n, f) <==> |ReplicasOf(l, o, f) - ReplicasOf(l, n, f)| < |o|)
  {
    SurvivalExact(l, o, n, f);
  }

  /** One join does not, nor do fewer failures than the write level. */
  lemma SmallChangesSurvived(l: Layout, o: set<Process>, p: Process, failed: set<Process>, f: string)
    requires o != {} && CollisionFree(l.pos, o)
    ensures p !in o && CollisionFree(l.pos, o + {p}) ==> EveryPutSurvives(l, o, o + {p}, f)
    ensures |failed| < WriteLevel(o) ==> EveryPutSurvives(l, o, o - failed, f)
  {
    if p !in o && CollisionFree(l.pos, o + {p}) {
      JoinDisplaces(l.pos, o, p, l.key(f), REPLICA_COUNT);
      SurvivalExact(l, o, o + {p}, f);
    }
    if |failed| < WriteLevel(o) {
      FailDisplaces(l.pos, o, failed, l.key(f), REPLICA_COUNT);
      SurvivalExact(l, o, o - failed, f);
    }
  }

  /** Converge does not look at versions: a replica that lists a file without one of its versions gets that version
      from no push of any run, only from a client. */
  lemma {:induction false} NeverCaughtUp(l: Layout, trace: seq<Cluster>, steps: seq<Step>, j: nat, i: nat, p: Process,
                                         f: string, v: nat)
    requires IsRun(l, trace, steps) && j <= i < |trace| && p in Holders(trace[j].tables, f) && !Lists(trace[j], p, f, v)
    requires forall t :: j <= t <= i ==> p in ReplicasOf(l, trace[t].now, f)
    requires forall t :: j <= t < i ==> !(steps[t].Delete? && steps[t].file == f)
    requires forall t :: j <= t < i ==>
      !(steps[t].Put? && steps[t].file == f && steps[t].version == v && p in steps[t].reached)
    ensures p in Holders(trace[i].tables, f) && !Lists(trace[i], p, f, v)
  {
    if j < i {
      var t := i - 1;
      NeverCaughtUp(l, trace, steps, j, t, p, f, v);
      RunInv(l, trace, steps, t);
      assert Enabled(l, trace[t], steps[t]) && trace[t + 1] == Apply(l, trace[t], steps[t]);
      StaysBehind(l, trace[t], steps[t], p, f, v);
    }
  }

  lemma StaysBehind(l: Layout, s: Cluster, step: Step, p: Process, f: string, v: nat)
    requires Shape(l, s) && Enabled(l, s, step) && p in Holders(s.tables, f) && !Lists(s, p, f, v)
    requires p in ReplicasOf(l, s.now, f) && p in ReplicasOf(l, Apply(l, s, step).now, f)
    requires !(step.Delete? && step.file == f)
    requires !(step.Put? && step.file == f && step.version == v && p in step.reached)
    ensures p in Holders(Apply(l, s, step).tables, f) && !Lists(Apply(l, s, step), p, f, v)
  {
    assert p in s.now && p in Apply(l, s, step).now;
    hide Replicas;
  }

  /** When all members are stable and its replicas have a file, a member that recycles stores it exactly when it is one
      of them. */
  lemma RecycledExactly(l: Layout, s: Cluster, f: string, p: Process)
    requires Inv(l, s) && Quiescent(s) && Durable(l, s, f) && p in s.now
    ensures p in Holders(Apply(l, s, Recycle(p)).tables, f) <==> p in ReplicasOf(l, s.now, f)
  {
    DurableSettled(l, s, f);
  }

  // ---- Epochs end ----

  ghost predicate Reachable(l: Layout, s: Cluster) {
    exists trace: seq<Cluster>, steps: seq<Step> :: IsRun(l, trace, steps) && trace[|steps|] == s
  }

  lemma RunReaches(l: Layout, trace: seq<Cluster>, steps: seq<Step>)
    requires IsRun(l, trace, steps)
    ensures Reachable(l, trace[|steps|])
  {
  }

  lemma Extend(l: Layout, s: Cluster, step: Step) returns (s': Cluster)
    requires Reachable(l, s) && Enabled(l, s, step)
    ensures Reachable(l, s') && s' == Apply(l, s, step)
  {
    hide Enabled, Apply, Init;
    s' := Apply(l, s, step);
    var trace: seq<Cluster>, steps: seq<Step> :| IsRun(l, trace, steps) && trace[|steps|] == s;
    hide Reachable;
    var t, ss := trace + [s'], steps + [step];
    forall i | 0 <= i < |ss|
      ensures Enabled(l, t[i], ss[i]) && t[i + 1] == Apply(l, t[i], ss[i])
    {
      if i < |steps| {
        assert t[i] == trace[i] && t[i + 1] == trace[i + 1] && ss[i] == steps[i];
      }
    }
    assert t[0] == trace[0];
    RunReaches(l, t, ss);
  }

  /** The same epoch, with no member less far but p. */
  ghost predicate SameEpoch(s: Cluster, s': Cluster, p: Process) {
    && s'.was == s.was && s'.now == s.now && s'.start == s.start && s'.touched == s.touched
    && s'.phase.Keys == s.phase.Keys && forall q :: q in s.phase && q != p ==> s'.phase[q] == s.phase[q]
  }

  /** A member that is sending can deliver everything and become stable. */
  lemma {:induction false} SendingEnds(l: Layout, s: Cluster, p: Process, out: set<Push>) returns (s': Cluster)
    requires Reachable(l, s) && p in s.phase && s.phase[p] == Sending(out)
    ensures Reachable(l, s') && SameEpoch(s, s', p) && p in s'.phase && s'.phase[p] == Stable
    decreases |out|
  {
    hide Reachable;
    if out == {} {
      s' := Extend(l, s, Finish(p));
    } else {
      var push :| push in out;
      var s1 := Extend(l, s, Deliver(p, push));
      assert s1.phase[p] == Sending(out - {push}) && SameEpoch(s, s1, p);
      hide Apply, Enabled;
      s' := SendingEnds(l, s1, p, out - {push});
    }
  }

  lemma MemberSettles(l: Layout, s: Cluster, p: Process) returns (s': Cluster)
    requires Reachable(l, s) && p in s.phase
    ensures Reachable(l, s') && SameEpoch(s, s', p) && p in s'.phase && s'.phase[p] == Stable
  {
    hide Reachable;
    match s.phase[p]
    case Stable => s' := s;
    case Sending(out) => s' := SendingEnds(l, s, p, out);
    case Waiting =>
      var s1 := Extend(l, s, Begin(p));
      assert SameEpoch(s, s1, p);
      s' := SendingEnds(l, s1, p, s1.phase[p].out);
  }

  ghost function Unsettled(s: Cluster): set<Process> {
    set p | p in s.phase && s.phase[p] != Stable
  }

  /** From every reachable state the epoch can be brought to its end: every member becomes stable, on the same
      membership. So the promises for settled states are not empty in any run. */
  lemma {:induction false} EpochEnds(l: Layout, s: Cluster) returns (s': Cluster)
    requires Reachable(l, s)
    ensures Reachable(l, s') && Quiescent(s')
    ensures s'.was == s.was && s'.now == s.now && s'.start == s.start && s'.touched == s.touched
    decreases |Unsettled(s)|
  {
    hide Reachable;
    if Unsettled(s) == {} {
      assert forall p :: p in s.phase && s.phase[p] != Stable ==> p in Unsettled(s);
      s' := s;
    } else {
      var p :| p in Unsettled(s);
      var s1 := MemberSettles(l, s, p);
      assert Unsettled(s1) == Unsettled(s) - {p};
      s' := EpochEnds(l, s1);
    }
  }
}
