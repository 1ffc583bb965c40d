/** Re-replication in SDFS as a protocol over whole runs (sdfs/server.go, Converge and Recycle).

    An epoch starts with a membership change, which wakes every member. Each member then snapshots
    the files it must push, the pushes arrive one file at a time in any order, and the member becomes
    stable when all have arrived. Members interleave freely, and a stable member may recycle the
    files it no longer replicates while its peers are still pushing. A push brings all versions of a file
    to a member without the file, and nothing to a member that lists any of them. Puts and Deletes reach some of
    the replicas, not always all. */
module Replication {
  import opened Api
  import opened Placement

  /** Home slots of members and of file names: any hash function induces one. */
  datatype Layout = Layout(pos: Process -> Slot, key: string -> Slot)

  datatype Push = Push(to: Process, file: string)

  /** Where a member is in the current epoch. */
  datatype Phase = Waiting | Sending(out: set<Push>) | Stable

  /** The versions a member lists of each file it stores. */
  type Listing = map<string, set<nat>>

  /** was and now are the memberships before and after the current epoch's change, start the tables right after it;
      touched holds the files that clients have put or deleted since. */
  datatype Cluster = Cluster(
    was: set<Process>,
    now: set<Process>,
    phase: map<Process, Phase>,
    tables: map<Process, Listing>,
    start: map<Process, Listing>,
    touched: set<string>)

  /** The next three members after p. */
  ghost function Successors(l: Layout, n: set<Process>, p: Process): set<Process> {
    Replicas(l.pos, n - {p}, l.pos(p), REPLICA_COUNT - 1)
  }

  /** The pushes Converge decides at p, given the old and the new membership and p's file table. */
  ghost function Pushes(l: Layout, o: set<Process>, n: set<Process>, p: Process, table: set<string>): set<Push> {
    (set x, f | x in n && f in table
        && IsRoute(l.pos, o, l.key(f), p) && IsPredecessor(l.pos, n, p, x) && IsRoute(l.pos, n, l.key(f), x)
        :: Push(x, f))
    + (set x, f | x in Successors(l, n, p) && f in table && IsRoute(l.pos, n, l.key(f), p) :: Push(x, f))
  }

  /** The replica set of a key is its primary and the primary's next three members. */
  lemma ReplicasAreRouteAndSuccessors(l: Layout, n: set<Process>, k: Slot, p: Process)
    requires CollisionFree(l.pos, n) && IsRoute(l.pos, n, k, p)
    ensures Replicas(l.pos, n, k, REPLICA_COUNT) == {p} + Successors(l, n, p)
  {
    var pos := l.pos;
    RouteIsReplica(pos, n, k, p, REPLICA_COUNT);
    forall x | x in n && x != p
      ensures |Closer(pos, n, k, x)| == |Closer(pos, n - {p}, pos(p), x)| + 1
    {
      assert pos(x) != pos(p);
      assert Dist(k, pos(p)) < Dist(k, pos(x));
      forall y | y in n && y != p
        ensures Dist(k, pos(y)) == Dist(k, pos(p)) + Dist(pos(p), pos(y))
      {
        assert Dist(k, pos(p)) <= Dist(k, pos(y));
      }
      assert Closer(pos, n, k, x) == {p} + Closer(pos, n - {p}, pos(p), x);
    }
  }

  // ---- Steps ----

  datatype Step =
    | Change(joined: set<Process>, failed: set<Process>)
    | Begin(p: Process)
    | Deliver(p: Process, push: Push)
    | Finish(p: Process)
    | Recycle(p: Process)
    | Put(file: string, version: nat, reached: set<Process>)
    | Delete(file: string, reached: set<Process>)

  ghost predicate Quiescent(s: Cluster) {
    forall p :: p in s.phase ==> s.phase[p] == Stable
  }

  ghost function ReplicasOf(l: Layout, m: set<Process>, f: string): set<Process> {
    Replicas(l.pos, m, l.key(f), REPLICA_COUNT)
  }

  ghost function After(s: Cluster, joined: set<Process>, failed: set<Process>): set<Process> {
    s.now - failed + joined
  }

  /** Membership changes, of any size, and client requests wait for the previous epoch to end. */
  ghost predicate Enabled(l: Layout, s: Cluster, step: Step) {
    match step
    case Change(joined, failed) =>
      && Quiescent(s) && joined !! s.now && failed <= s.now
      && After(s, joined, failed) != {} && CollisionFree(l.pos, After(s, joined, failed))
    case Begin(p) => p in s.phase && s.phase[p] == Waiting
    case Deliver(p, push) => p in s.phase && s.phase[p].Sending? && push in s.phase[p].out
    case Finish(p) => p in s.phase && s.phase[p] == Sending({})
    case Recycle(p) => p in s.phase && s.phase[p] == Stable
    case Put(file, _, reached) => Quiescent(s) && reached <= ReplicasOf(l, s.now, file)
    case Delete(file, reached) => Quiescent(s) && reached <= ReplicasOf(l, s.now, file)
  }

  ghost predicate Shape(l: Layout, s: Cluster) {
    && s.was != {} && s.now != {}
    && CollisionFree(l.pos, s.was) && CollisionFree(l.pos, s.now)
    && s.phase.Keys == s.now && s.tables.Keys == s.now && s.start.Keys == s.now
  }

  ghost function Table(s: Cluster, p: Process): Listing {
    if p in s.tables then s.tables[p] else map[]
  }

  ghost function VersionsIn(t: Listing, f: string): set<nat> {
    if f in t then t[f] else {}
  }

  ghost predicate Lists(s: Cluster, p: Process, f: string, v: nat) {
    p in s.tables && f in s.tables[p] && v in s.tables[p][f]
  }

  /** The receiver asks for the files it does not list. */
  ghost function Received(t: Listing, from: Listing, f: string): Listing {
    if f in from && f !in t then t[f := from[f]] else t
  }

  ghost function Apply(l: Layout, s: Cluster, step: Step): Cluster
    requires Enabled(l, s, step)
  {
    match step
    case Change(joined, failed) =>
      var n := After(s, joined, failed);
      var tables := map p | p in n :: if p in joined then map[] else Table(s, p);
      Cluster(s.now, n, map p | p in n :: Waiting, tables, tables, {})
    case Begin(p) =>
      s.(phase := s.phase[p := Sending(Pushes(l, s.was, s.now, p, Table(s, p).Keys))])
    case Deliver(p, push) =>
      s.(phase := s.phase[p := Sending(s.phase[p].out - {push})],
         tables := if push.to in s.tables
                   then s.tables[push.to := Received(s.tables[push.to], Table(s, p), push.file)] else s.tables)
    case Finish(p) =>
      s.(phase := s.phase[p := Stable])
    case Recycle(p) =>
      s.(tables := s.tables[p := map f | f in Table(s, p) && p in ReplicasOf(l, s.now, f) :: Table(s, p)[f]])
    case Put(file, version, reached) =>
      s.(touched := s.touched + {file},
         tables := map p | p in s.tables ::
           if p in reached then s.tables[p][file := VersionsIn(s.tables[p], file) + {version}] else s.tables[p])
    case Delete(file, reached) =>
      s.(touched := s.touched + {file},
         tables := map p | p in s.tables :: if p in reached then s.tables[p] - {file} else s.tables[p])
  }

  ghost predicate Init(l: Layout, s: Cluster) {
    && Shape(l, s) && s.was == s.now && Quiescent(s) && s.start == s.tables && s.touched == {}
    && forall p :: p in s.tables ==> s.tables[p] == map[]
  }

  // ---- Invariant ----

  ghost function Holders(tables: map<Process, Listing>, f: string): set<Process> {
    set p | p in tables && f in tables[p]
  }

  /** The push of file f from one member to another is still to come, on its way, or done. */
  ghost predicate Handled(s: Cluster, from: Process, to: Process, f: string)
    requires from in s.phase && to in s.tables
  {
    || s.phase[from] == Waiting
    || f in s.tables[to]
    || (s.phase[from].Sending? && Push(to, f) in s.phase[from].out)
  }

  /** Those that stored f when the epoch began keep its versions, until they are stable and no replicas of it. */
  ghost predicate Kept(l: Layout, s: Cluster, f: string)
    requires Shape(l, s)
  {
    forall p :: p in Holders(s.start, f) ==>
      && (p in ReplicasOf(l, s.now, f) || s.phase[p] != Stable ==> f in s.tables[p])
      && (f in s.tables[p] ==> s.tables[p][f] == s.start[p][f])
  }

  /** The pushes that f needs. */
  ghost predicate Underway(l: Layout, s: Cluster, f: string)
    requires Shape(l, s)
  {
    var h, k := Holders(s.start, f), l.key(f);
    var was, now := Route(l.pos, s.was, k), Route(l.pos, s.now, k);
    && (now in h ==> forall p :: p in ReplicasOf(l, s.now, f) && p != now ==> Handled(s, now, p, f))
    && (was in h && IsPredecessor(l.pos, s.now, was, now) ==> Handled(s, was, now, f))
  }

  /** The member whose versions of f are copied. */
  ghost function Source(l: Layout, s: Cluster, f: string): Process
    requires Shape(l, s)
  {
    var k := l.key(f);
    var was, now := Route(l.pos, s.was, k), Route(l.pos, s.now, k);
    if now in Holders(s.start, f) then now else was
  }

  ghost predicate CanMove(l: Layout, s: Cluster, f: string)
    requires Shape(l, s)
  {
    Moves(l.pos, s.was, s.now, l.key(f), Holders(s.start, f))
  }

  /** Nobody else has f but replicas, with the versions of the source. */
  ghost predicate Bounded(l: Layout, s: Cluster, f: string)
    requires Shape(l, s)
  {
    forall p :: p in Holders(s.tables, f) && p !in Holders(s.start, f) ==>
      && p in ReplicasOf(l, s.now, f) && CanMove(l, s, f)
      && Source(l, s, f) in Holders(s.start, f) && s.tables[p][f] == s.start[Source(l, s, f)][f]
  }

  /** Pushes on their way are of stored files, from the primary to the replicas or to the primary from behind. */
  ghost predicate SendersOk(l: Layout, s: Cluster)
    requires Shape(l, s)
  {
    forall p, push :: p in s.phase && s.phase[p].Sending? && push in s.phase[p].out ==> PushOk(l, s, p, push)
  }

  ghost predicate PushOk(l: Layout, s: Cluster, p: Process, push: Push)
    requires Shape(l, s)
  {
    var k := l.key(push.file);
    var was, now := Route(l.pos, s.was, k), Route(l.pos, s.now, k);
    && p in Holders(s.tables, push.file) && push.to in ReplicasOf(l, s.now, push.file)
    && (p == now || (p == was && push.to == now && IsPredecessor(l.pos, s.now, was, now)))
  }

  ghost predicate FileSafe(l: Layout, s: Cluster, f: string)
    requires Shape(l, s)
  {
    Kept(l, s, f) && Underway(l, s, f) && Bounded(l, s, f)
  }

  ghost predicate Inv(l: Layout, s: Cluster) {
    && Shape(l, s) && SendersOk(l, s)
    && (forall f :: f !in s.touched ==> FileSafe(l, s, f))
  }

  lemma SafeParts(l: Layout, s: Cluster, f: string)
    requires Shape(l, s) && FileSafe(l, s, f)
    ensures Kept(l, s, f) && Underway(l, s, f) && Bounded(l, s, f)
  {
  }

  lemma SafeFromParts(l: Layout, s: Cluster, f: string)
    requires Shape(l, s) && Kept(l, s, f) && Underway(l, s, f) && Bounded(l, s, f)
    ensures FileSafe(l, s, f)
  {
  }

  lemma RouteInReplicas(l: Layout, m: set<Process>, f: string)
    requires m != {}
    ensures Route(l.pos, m, l.key(f)) in ReplicasOf(l, m, f) && ReplicasOf(l, m, f) <= m
  {
    RouteIsReplica(l.pos, m, l.key(f), Route(l.pos, m, l.key(f)), REPLICA_COUNT);
  }

  /** From s to s' only tables and phases changed, and of file f only what stable members are free to drop. */
  ghost predicate Carries(l: Layout, s: Cluster, s': Cluster, f: string)
    requires Shape(l, s) && Shape(l, s')
  {
    && s'.was == s.was && s'.now == s.now && s'.start == s.start
    && (forall p :: p in s.now && s.phase[p] == Stable ==> s'.phase[p] == Stable)
    && (forall p :: p in Holders(s'.tables, f) ==> p in Holders(s.tables, f) && s'.tables[p][f] == s.tables[p][f])
    && (forall p :: p in Holders(s.tables, f) ==>
          p in Holders(s'.tables, f) || (p !in ReplicasOf(l, s.now, f) && s.phase[p] == Stable))
  }

  lemma CarriesSafe(l: Layout, s: Cluster, s': Cluster, f: string)
    requires Shape(l, s) && Shape(l, s') && Carries(l, s, s', f) && FileSafe(l, s, f)
    ensures Kept(l, s', f) && Bounded(l, s', f)
  {
    hide ReplicasOf, Route, Moves, Underway;
    forall p | p in Holders(s.start, f) && (p in ReplicasOf(l, s.now, f) || s'.phase[p] != Stable)
      ensures f in s'.tables[p]
    {
      assert p in Holders(s.tables, f);
    }
    forall p | p in Holders(s.start, f) && f in s'.tables[p]
      ensures s'.tables[p][f] == s.start[p][f]
    {
      assert p in Holders(s'.tables, f);
    }
  }

  /** Pushes that were handled still are. */
  lemma HandledSafe(l: Layout, s: Cluster, s': Cluster, f: string)
    requires Shape(l, s) && Shape(l, s') && s'.was == s.was && s'.now == s.now && s'.start == s.start
    requires Underway(l, s, f)
    requires forall p, q ::
      p in s.now && q in s.now && q in ReplicasOf(l, s.now, f) && Handled(s, p, q, f) ==> Handled(s', p, q, f)
    ensures Underway(l, s', f)
  {
    RouteInReplicas(l, s.now, f);
    hide ReplicasOf, Handled, IsPredecessor, IsRoute;
  }

  lemma ChangeKeepsInv(l: Layout, s: Cluster, joined: set<Process>, failed: set<Process>)
    requires Inv(l, s) && Enabled(l, s, Change(joined, failed))
    ensures Inv(l, Apply(l, s, Change(joined, failed)))
  {
    var s' := Apply(l, s, Change(joined, failed));
    hide FileSafe, ReplicasOf;
    forall f | f !in s'.touched
      ensures FileSafe(l, s', f)
    {
      NewEpochSafe(l, s', f);
    }
  }

  lemma NewEpochSafe(l: Layout, s: Cluster, f: string)
    requires Shape(l, s) && s.start == s.tables && forall p :: p in s.now ==> s.phase[p] == Waiting
    ensures FileSafe(l, s, f)
  {
    RouteInReplicas(l, s.now, f);
    hide ReplicasOf, IsPredecessor, IsRoute;
  }

  /** Converge at the new primary pushes its file to every other replica. */
  lemma PushedToReplica(l: Layout, o: set<Process>, n: set<Process>, p: Process, table: set<string>, f: string,
                        x: Process)
    requires CollisionFree(l.pos, n) && IsRoute(l.pos, n, l.key(f), p) && f in table
    requires x in Replicas(l.pos, n, l.key(f), REPLICA_COUNT) && x != p
    ensures Push(x, f) in Pushes(l, o, n, p, table)
  {
    ReplicasAreRouteAndSuccessors(l, n, l.key(f), p);
  }

  /** Converge at the old primary pushes a file to its predecessor when that is the new primary. */
  lemma PushedToPredecessor(l: Layout, o: set<Process>, n: set<Process>, p: Process, table: set<string>, f: string,
                            x: Process)
    requires IsRoute(l.pos, o, l.key(f), p) && f in table
    requires IsPredecessor(l.pos, n, p, x) && IsRoute(l.pos, n, l.key(f), x)
    ensures Push(x, f) in Pushes(l, o, n, p, table)
  {
  }

  /** Converge pushes a file nowhere else. */
  lemma PushedOnlyThere(l: Layout, o: set<Process>, n: set<Process>, p: Process, table: set<string>, f: string,
                        x: Process)
    requires CollisionFree(l.pos, n) && Push(x, f) in Pushes(l, o, n, p, table)
    ensures || (IsRoute(l.pos, o, l.key(f), p) && IsPredecessor(l.pos, n, p, x) && IsRoute(l.pos, n, l.key(f), x))
            || (IsRoute(l.pos, n, l.key(f), p) && x in Replicas(l.pos, n, l.key(f), REPLICA_COUNT))
  {
    if IsRoute(l.pos, n, l.key(f), p) {
      ReplicasAreRouteAndSuccessors(l, n, l.key(f), p);
    }
  }

  lemma BeginFileSafe(l: Layout, s: Cluster, s': Cluster, p: Process, f: string)
    requires Shape(l, s) && Shape(l, s') && FileSafe(l, s, f) && p in s.now && s.phase[p] == Waiting
    requires s' == s.(phase := s.phase[p := Sending(Pushes(l, s.was, s.now, p, s.tables[p].Keys))])
    ensures FileSafe(l, s', f)
  {
    hide Closer, Pushes, Replicas, IsRoute, IsPredecessor;
    var k := l.key(f);
    RouteInReplicas(l, s.now, f);
    CarriesSafe(l, s, s', f);
    var was, now := Route(l.pos, s.was, k), Route(l.pos, s.now, k);
    if now in Holders(s.start, f) {
      forall x | x in ReplicasOf(l, s.now, f) && x != now
        ensures Handled(s', now, x, f)
      {
        assert Handled(s, now, x, f);
        if p == now {
          PushedToReplica(l, s.was, s.now, p, s.tables[p].Keys, f, x);
        }
      }
    }
    if was in Holders(s.start, f) && IsPredecessor(l.pos, s.now, was, now) && p == was {
      PushedToPredecessor(l, s.was, s.now, p, s.tables[p].Keys, f, now);
    }
  }

  lemma BeginPushOk(l: Layout, s: Cluster, p: Process, push: Push)
    requires Shape(l, s) && p in s.now && push in Pushes(l, s.was, s.now, p, Table(s, p).Keys)
    ensures PushOk(l, s, p, push)
  {
    var k := l.key(push.file);
    assert push == Push(push.to, push.file);
    RouteInReplicas(l, s.now, push.file);
    PushedOnlyThere(l, s.was, s.now, p, Table(s, p).Keys, push.file, push.to);
    if IsRoute(l.pos, s.now, k, p) {
      RouteUnique(l.pos, s.now, k, p, Route(l.pos, s.now, k));
    } else {
      RouteUnique(l.pos, s.was, k, p, Route(l.pos, s.was, k));
      RouteUnique(l.pos, s.now, k, push.to, Route(l.pos, s.now, k));
    }
  }

  lemma BeginKeepsInv(l: Layout, s: Cluster, p: Process)
    requires Inv(l, s) && Enabled(l, s, Begin(p))
    ensures Inv(l, Apply(l, s, Begin(p)))
  {
    var s' := Apply(l, s, Begin(p));
    hide FileSafe, Pushes, PushOk, Replicas;
    forall f | f !in s'.touched
      ensures FileSafe(l, s', f)
    {
      BeginFileSafe(l, s, s', p, f);
    }
    forall q, push | q in s'.phase && s'.phase[q].Sending? && push in s'.phase[q].out
      ensures PushOk(l, s', q, push)
    {
      if q == p {
        BeginPushOk(l, s, p, push);
      }
      SamePushOk(l, s, s', q, push);
    }
  }

  lemma SamePushOk(l: Layout, s: Cluster, s': Cluster, p: Process, push: Push)
    requires Shape(l, s) && Shape(l, s') && s'.was == s.was && s'.now == s.now && PushOk(l, s, p, push)
    requires p in Holders(s'.tables, push.file)
    ensures PushOk(l, s', p, push)
  {
  }

  /** The state after a delivery. */
  ghost predicate Delivered(l: Layout, s: Cluster, s': Cluster, p: Process, push: Push)
    requires Shape(l, s)
  {
    && p in s.now && s.phase[p].Sending? && push in s.phase[p].out && push.to in s.now
    && s' == s.(phase := s.phase[p := Sending(s.phase[p].out - {push})],
                tables := s.tables[push.to := Received(s.tables[push.to], s.tables[p], push.file)])
  }

  lemma DeliveredHandles(l: Layout, s: Cluster, s': Cluster, p: Process, push: Push, f: string, x: Process, y: Process)
    requires Shape(l, s) && Shape(l, s') && Delivered(l, s, s', p, push)
    requires p in Holders(s.tables, push.file) && x in s.now && y in s.now && Handled(s, x, y, f)
    ensures Handled(s', x, y, f)
  {
  }

  lemma DeliveredCarries(l: Layout, s: Cluster, s': Cluster, p: Process, push: Push, f: string)
    requires Shape(l, s) && Shape(l, s') && Delivered(l, s, s', p, push) && f != push.file
    ensures Carries(l, s, s', f)
  {
    hide ReplicasOf;
  }

  lemma DeliverFileSafe(l: Layout, s: Cluster, s': Cluster, p: Process, push: Push, f: string)
    requires Shape(l, s) && Shape(l, s') && FileSafe(l, s, f) && Delivered(l, s, s', p, push) && PushOk(l, s, p, push)
    ensures FileSafe(l, s', f)
  {
    hide ReplicasOf, FileSafe, Kept, Underway, Bounded, Route, Handled, Holders;
    SafeParts(l, s, f);
    forall x, y | x in s.now && y in s.now && Handled(s, x, y, f)
      ensures Handled(s', x, y, f)
    {
      DeliveredHandles(l, s, s', p, push, f, x, y);
    }
    HandledSafe(l, s, s', f);
    if push.file == f {
      DeliveredBounded(l, s, s', p, push);
    } else {
      DeliveredCarries(l, s, s', p, push, f);
      CarriesSafe(l, s, s', f);
    }
    SafeFromParts(l, s', f);
  }

  /** What arrives are the source's versions. */
  lemma DeliveredBounded(l: Layout, s: Cluster, s': Cluster, p: Process, push: Push)
    requires Shape(l, s) && Shape(l, s') && Kept(l, s, push.file) && Bounded(l, s, push.file)
    requires Delivered(l, s, s', p, push) && PushOk(l, s, p, push)
    ensures Kept(l, s', push.file) && Bounded(l, s', push.file)
  {
    var f, h := push.file, Holders(s.start, push.file);
    assert push.to in ReplicasOf(l, s.now, f);
    if push.to !in h {
      SenderHasSource(l, s, p, push);
    }
    hide ReplicasOf, CanMove, PushOk, Kept, Bounded, Route, Source;
    DeliveredKept(l, s, s', p, push);
    DeliveredOthers(l, s, s', p, push);
  }

  lemma DeliveredKept(l: Layout, s: Cluster, s': Cluster, p: Process, push: Push)
    requires Shape(l, s) && Shape(l, s') && Kept(l, s, push.file) && Delivered(l, s, s', p, push)
    requires p in Holders(s.tables, push.file) && push.to in ReplicasOf(l, s.now, push.file)
    ensures Kept(l, s', push.file)
  {
    hide ReplicasOf;
  }

  lemma DeliveredOthers(l: Layout, s: Cluster, s': Cluster, p: Process, push: Push)
    requires Shape(l, s) && Shape(l, s') && Bounded(l, s, push.file) && Delivered(l, s, s', p, push)
    requires p in Holders(s.tables, push.file) && push.to in ReplicasOf(l, s.now, push.file)
    requires var f, source := push.file, Source(l, s, push.file);
             push.to in Holders(s.start, f)
             || (CanMove(l, s, f) && source in Holders(s.start, f) && s.tables[p][f] == s.start[source][f])
    ensures Bounded(l, s', push.file)
  {
    var f := push.file;
    assert Source(l, s', f) == Source(l, s, f) && CanMove(l, s', f) == CanMove(l, s, f);
    hide ReplicasOf, Source, CanMove;
    forall x | x in Holders(s'.tables, f) && x !in Holders(s.start, f)
      ensures x in ReplicasOf(l, s.now, f) && CanMove(l, s, f) && Source(l, s, f) in Holders(s.start, f)
      ensures s'.tables[x][f] == s.start[Source(l, s, f)][f]
    {
      if x != push.to {
        assert x in Holders(s.tables, f);
      }
    }
  }

  lemma SenderHasSource(l: Layout, s: Cluster, p: Process, push: Push)
    requires Shape(l, s) && Kept(l, s, push.file) && Bounded(l, s, push.file) && PushOk(l, s, p, push)
    requires push.to !in Holders(s.start, push.file)
    ensures var f, source := push.file, Source(l, s, push.file);
            CanMove(l, s, f) && source in Holders(s.start, f) && s.tables[p][f] == s.start[source][f]
  {
    hide ReplicasOf, IsRoute, IsPredecessor;
    assert p in Holders(s.tables, push.file);
  }

  lemma DeliverKeepsInv(l: Layout, s: Cluster, p: Process, push: Push)
    requires Inv(l, s) && Enabled(l, s, Deliver(p, push))
    ensures Inv(l, Apply(l, s, Deliver(p, push)))
  {
    hide FileSafe, PushOk, ReplicasOf, SendersOk, CollisionFree;
    DeliverDelivers(l, s, p, push);
    var s' := Apply(l, s, Deliver(p, push));
    PushOkHolds(l, s, p, push);
    hide Apply, Enabled;
    forall f | f !in s'.touched
      ensures FileSafe(l, s', f)
    {
      DeliverFileSafe(l, s, s', p, push, f);
    }
    SendersStay(l, s, s');
  }

  lemma DeliverDelivers(l: Layout, s: Cluster, p: Process, push: Push)
    requires Inv(l, s) && Enabled(l, s, Deliver(p, push))
    ensures p in s.phase && s.phase[p].Sending? && push in s.phase[p].out
    ensures var s' := Apply(l, s, Deliver(p, push));
            Shape(l, s') && Delivered(l, s, s', p, push) && s'.touched == s.touched
  {
    PushOkHolds(l, s, p, push);
    hide FileSafe, PushOk, ReplicasOf, SendersOk;
  }

  lemma PushOkHolds(l: Layout, s: Cluster, p: Process, push: Push)
    requires Shape(l, s) && SendersOk(l, s) && p in s.phase && s.phase[p].Sending? && push in s.phase[p].out
    ensures PushOk(l, s, p, push) && p in Holders(s.tables, push.file) && push.to in s.now
  {
  }

  /** Senders that keep their files keep their pushes in order. */
  lemma SendersStay(l: Layout, s: Cluster, s': Cluster)
    requires Shape(l, s) && Shape(l, s') && SendersOk(l, s) && s'.was == s.was && s'.now == s.now
    requires forall p :: p in s'.now && s'.phase[p].Sending? ==>
      s.phase[p].Sending? && s'.phase[p].out <= s.phase[p].out
    requires forall p :: p in s'.now && s'.phase[p].Sending? ==> s.tables[p].Keys <= s'.tables[p].Keys
    ensures SendersOk(l, s')
  {
    hide ReplicasOf, IsPredecessor, IsRoute;
    forall p, push | p in s'.phase && s'.phase[p].Sending? && push in s'.phase[p].out
      ensures PushOk(l, s', p, push)
    {
      PushOkHolds(l, s, p, push);
    }
  }

  /** Phases are as they were, but a member that has sent everything may become stable. */
  ghost predicate SamePhases(s: Cluster, s': Cluster)
    requires s.phase.Keys == s'.phase.Keys
  {
    forall p :: p in s.phase ==> s'.phase[p] == s.phase[p] || (s.phase[p] == Sending({}) && s'.phase[p] == Stable)
  }

  lemma CarriedOn(l: Layout, s: Cluster, s': Cluster, f: string)
    requires Shape(l, s) && Shape(l, s') && FileSafe(l, s, f) && Carries(l, s, s', f) && SamePhases(s, s')
    ensures FileSafe(l, s', f)
  {
    hide FileSafe, Kept, Underway, Bounded, Replicas;
    SafeParts(l, s, f);
    CarriesSafe(l, s, s', f);
    forall p, q | p in s.now && q in s.now && q in ReplicasOf(l, s.now, f) && Handled(s, p, q, f)
      ensures Handled(s', p, q, f)
    {
      assert f in s.tables[q] ==> q in Holders(s.tables, f);
    }
    hide Carries, SamePhases, Handled, ReplicasOf;
    HandledSafe(l, s, s', f);
    SafeFromParts(l, s', f);
  }

  lemma FinishCarries(l: Layout, s: Cluster, p: Process, f: string)
    requires Shape(l, s) && Enabled(l, s, Finish(p))
    ensures var s' := Apply(l, s, Finish(p)); Shape(l, s') && Carries(l, s, s', f) && SamePhases(s, s')
  {
    hide ReplicasOf, Replicas;
  }

  lemma FinishKeepsInv(l: Layout, s: Cluster, p: Process)
    requires Inv(l, s) && Enabled(l, s, Finish(p))
    ensures Inv(l, Apply(l, s, Finish(p)))
  {
    var s' := Apply(l, s, Finish(p));
    FinishCarries(l, s, p, "");
    hide FileSafe, ReplicasOf, SendersOk;
    SendersStay(l, s, s');
    forall f | f !in s'.touched
      ensures FileSafe(l, s', f)
    {
      assert FileSafe(l, s, f);
      hide Apply, Shape;
      FinishCarries(l, s, p, f);
      CarriedOn(l, s, s', f);
    }
  }

  lemma RecycleCarries(l: Layout, s: Cluster, p: Process, f: string)
    requires Shape(l, s) && Enabled(l, s, Recycle(p))
    ensures var s' := Apply(l, s, Recycle(p)); Shape(l, s') && Carries(l, s, s', f) && SamePhases(s, s')
  {
    hide Replicas;
  }

  lemma RecycleKeepsInv(l: Layout, s: Cluster, p: Process)
    requires Inv(l, s) && Enabled(l, s, Recycle(p))
    ensures Inv(l, Apply(l, s, Recycle(p)))
  {
    var s' := Apply(l, s, Recycle(p));
    RecycleCarries(l, s, p, "");
    hide FileSafe, ReplicasOf, SendersOk;
    SendersStay(l, s, s');
    forall f | f !in s'.touched
      ensures FileSafe(l, s', f)
    {
      assert FileSafe(l, s, f);
      hide Apply, Shape;
      RecycleCarries(l, s, p, f);
      CarriedOn(l, s, s', f);
    }
  }

  lemma ClientCarries(l: Layout, s: Cluster, step: Step, f: string)
    requires Shape(l, s) && Enabled(l, s, step) && (step.Put? || step.Delete?)
    ensures var s' := Apply(l, s, step);
            Shape(l, s') && SamePhases(s, s') && (f != step.file ==> Carries(l, s, s', f))
  {
    hide ReplicasOf;
  }

  lemma ClientStepKeepsInv(l: Layout, s: Cluster, step: Step)
    requires Inv(l, s) && Enabled(l, s, step) && (step.Put? || step.Delete?)
    ensures Inv(l, Apply(l, s, step))
  {
    var s' := Apply(l, s, step);
    ClientCarries(l, s, step, step.file);
    hide FileSafe, ReplicasOf, SendersOk;
    SendersStay(l, s, s');
    forall f | f !in s'.touched
      ensures FileSafe(l, s', f)
    {
      assert FileSafe(l, s, f);
      assert f != step.file;
      hide Apply, Shape;
      ClientCarries(l, s, step, f);
      CarriedOn(l, s, s', f);
    }
  }

  lemma StepKeepsInv(l: Layout, s: Cluster, step: Step)
    requires Inv(l, s) && Enabled(l, s, step)
    ensures Inv(l, Apply(l, s, step))
  {
    match step
    case Change(joined, failed) => ChangeKeepsInv(l, s, joined, failed);
    case Begin(p) => BeginKeepsInv(l, s, p);
    case Deliver(p, push) => DeliverKeepsInv(l, s, p, push);
    case Finish(p) => FinishKeepsInv(l, s, p);
    case Recycle(p) => RecycleKeepsInv(l, s, p);
    case Put(_, _, _) => ClientStepKeepsInv(l, s, step);
    case Delete(_, _) => ClientStepKeepsInv(l, s, step);
  }

  // ---- Whole runs ----

  ghost predicate IsRun(l: Layout, trace: seq<Cluster>, steps: seq<Step>) {
    && |trace| == |steps| + 1
    && Init(l, trace[0])
    && forall i :: 0 <= i < |steps| ==>
         Enabled(l, trace[i], steps[i]) && trace[i + 1] == Apply(l, trace[i], steps[i])
  }

  lemma {:induction false} RunInv(l: Layout, trace: seq<Cluster>, steps: seq<Step>, i: nat)
    requires IsRun(l, trace, steps) && i < |trace|
    ensures Inv(l, trace[i])
  {
    if i == 0 {
      InitInv(l, trace[0]);
    } else {
      RunInv(l, trace, steps, i - 1);
      StepKeepsInv(l, trace[i - 1], steps[i - 1]);
    }
  }

  lemma InitInv(l: Layout, s: Cluster)
    requires Init(l, s)
    ensures Inv(l, s)
  {
  }

  /** Every replica of f stores f. */
  ghost predicate Covered(l: Layout, s: Cluster, f: string) {
    ReplicasOf(l, s.now, f) <= Holders(s.tables, f)
  }

  /** A member directly behind the primary is a replica too. */
  lemma OldRouteStaysReplica(l: Layout, n: set<Process>, k: Slot, p: Process, q: Process)
    requires CollisionFree(l.pos, n) && p in n && IsRoute(l.pos, n, k, q) && IsPredecessor(l.pos, n, p, q)
    ensures p in Replicas(l.pos, n, k, REPLICA_COUNT)
  {
    assert l.pos(p) != l.pos(q);
    forall x | x in Closer(l.pos, n, k, p)
      ensures x == q
    {
      assert x != q ==> l.pos(x) != l.pos(q);
      assert Dist(l.pos(q), l.pos(p)) <= Dist(l.pos(x), l.pos(p));
    }
    SubsetCardinality(Closer(l.pos, n, k, p), {q});
  }

  /** A file that moves has a surviving holder among its new replicas. */
  lemma MoverIsReplica(l: Layout, s: Cluster, f: string)
    requires Shape(l, s) && CanMove(l, s, f)
    ensures Holders(s.start, f) * ReplicasOf(l, s.now, f) != {}
  {
    var k := l.key(f);
    var was, now := Route(l.pos, s.was, k), Route(l.pos, s.now, k);
    RouteInReplicas(l, s.now, f);
    if now in Holders(s.start, f) {
      assert now in Holders(s.start, f) * ReplicasOf(l, s.now, f);
    } else {
      OldRouteStaysReplica(l, s.now, k, was, now);
      assert was in Holders(s.start, f) * ReplicasOf(l, s.now, f);
    }
  }

  /** In every state of every run, also in the middle of an epoch, and whatever the membership change: a file is stored
      by one of its replicas if and only if a member that stored it when the epoch began is now one of them. */
  lemma SurvivesExactly(l: Layout, trace: seq<Cluster>, steps: seq<Step>, i: nat, f: string)
    requires IsRun(l, trace, steps) && i < |trace| && f !in trace[i].touched
    ensures var s := trace[i];
            Holders(s.tables, f) * ReplicasOf(l, s.now, f) != {}
            <==> Holders(s.start, f) * ReplicasOf(l, s.now, f) != {}
  {
    RunInv(l, trace, steps, i);
    var s := trace[i];
    assert FileSafe(l, s, f);
    hide ReplicasOf;
    if p :| p in Holders(s.tables, f) * ReplicasOf(l, s.now, f) {
      if p in Holders(s.start, f) {
        assert p in Holders(s.start, f) * ReplicasOf(l, s.now, f);
      } else {
        MoverIsReplica(l, s, f);
      }
    }
    if p :| p in Holders(s.start, f) * ReplicasOf(l, s.now, f) {
      assert p in Holders(s.tables, f) * ReplicasOf(l, s.now, f);
    }
  }

  /** The versions of f that replica p ends up with, given the tables the epoch began with. */
  ghost predicate SettledAt(l: Layout, s: Cluster, f: string, p: Process)
    requires Shape(l, s) && p in s.now
  {
    var h, k := Holders(s.start, f), l.key(f);
    var was, now := Route(l.pos, s.was, k), Route(l.pos, s.now, k);
    if p in h then f in s.tables[p] && s.tables[p][f] == s.start[p][f]
    else if now in h then f in s.tables[p] && s.tables[p][f] == s.start[now][f]
    else if !CanMove(l, s, f) then f !in s.tables[p]
    else (f in s.tables[p] || p != now) && (f in s.tables[p] ==> s.tables[p][f] == s.start[was][f])
  }

  /** What an epoch achieves, in every run and for every membership change and every holders: when all members are
      stable, each replica that had the file has the versions it had, and the others have those of the new primary if
      that had the file; otherwise nothing, or the new primary (and perhaps others) the old primary's versions. A
      repairable file is at all its replicas. */
  lemma EpochRepairs(l: Layout, trace: seq<Cluster>, steps: seq<Step>, i: nat, f: string)
    requires IsRun(l, trace, steps) && i < |trace| && Quiescent(trace[i]) && f !in trace[i].touched
    ensures Shape(l, trace[i])
    ensures forall p :: p in ReplicasOf(l, trace[i].now, f) ==> p in trace[i].now && SettledAt(l, trace[i], f, p)
    ensures var s := trace[i]; Repairable(l.pos, s.was, s.now, l.key(f), Holders(s.start, f)) ==> Covered(l, s, f)
  {
    RunInv(l, trace, steps, i);
    Settles(l, trace[i], f);
  }

  lemma Settles(l: Layout, s: Cluster, f: string)
    requires Inv(l, s) && Quiescent(s) && f !in s.touched
    ensures forall p :: p in ReplicasOf(l, s.now, f) ==> p in s.now && SettledAt(l, s, f, p)
    ensures Repairable(l.pos, s.was, s.now, l.key(f), Holders(s.start, f)) ==> Covered(l, s, f)
  {
    assert FileSafe(l, s, f);
    RouteInReplicas(l, s.now, f);
    hide ReplicasOf, FileSafe, SettledAt;
    SafeParts(l, s, f);
    forall p | p in ReplicasOf(l, s.now, f)
      ensures p in s.now && SettledAt(l, s, f, p)
    {
      SettlesAt(l, s, f, p);
    }
    if Repairable(l.pos, s.was, s.now, l.key(f), Holders(s.start, f)) {
      forall p | p in ReplicasOf(l, s.now, f)
        ensures p in Holders(s.tables, f)
      {
        SettledStored(l, s, f, p);
      }
    }
  }

  lemma SettlesAt(l: Layout, s: Cluster, f: string, p: Process)
    requires Shape(l, s) && Quiescent(s) && Kept(l, s, f) && Underway(l, s, f) && Bounded(l, s, f)
    requires p in ReplicasOf(l, s.now, f) && p in s.now
    ensures SettledAt(l, s, f, p)
  {
    var now := Route(l.pos, s.now, l.key(f));
    hide ReplicasOf, IsPredecessor, IsRoute;
    assert p in s.phase && now in s.phase;
    if now in Holders(s.start, f) && p != now {
      assert Handled(s, now, p, f);
    }
    assert f in s.tables[p] ==> p in Holders(s.tables, f);
  }

  lemma SettledStored(l: Layout, s: Cluster, f: string, p: Process)
    requires Shape(l, s) && p in s.now && SettledAt(l, s, f, p) && p in ReplicasOf(l, s.now, f)
    requires Repairable(l.pos, s.was, s.now, l.key(f), Holders(s.start, f))
    ensures p in Holders(s.tables, f)
  {
    hide IsPredecessor, IsRoute, Replicas;
  }
}
