/** The geometry of consistent hashing, independent of how the ring is stored.

    Members sit on a circle of 1024 slots. The replicas of a key are the members met first when
    walking clockwise from the key's slot. Everything is stated on sets of members, so that the
    ring of sdfs/hash_ring.go and the replication protocol of sdfs/server.go share one meaning. */
module Placement {
  import opened Api

  const HASH_SIZE: nat := 1024
  const REPLICA_COUNT: nat := 4

  type Slot = s: nat | s < HASH_SIZE

  /** Clockwise distance from slot k to slot s. */
  function Dist(k: Slot, s: Slot): (d: nat)
    ensures d < HASH_SIZE
  {
    if s >= k then s - k else s + HASH_SIZE - k
  }

  /** No two members share a home slot. */
  ghost predicate CollisionFree(pos: Process -> Slot, m: set<Process>) {
    forall p, q :: p in m && q in m && pos(p) == pos(q) ==> p == q
  }

  ghost function Closer(pos: Process -> Slot, m: set<Process>, k: Slot, p: Process): set<Process> {
    set q | q in m && Dist(k, pos(q)) < Dist(k, pos(p))
  }

  /** The r members closest to k: those with fewer than r members in front of them. */
  ghost function Replicas(pos: Process -> Slot, m: set<Process>, k: Slot, r: nat): set<Process> {
    set p | p in m && |Closer(pos, m, k, p)| < r
  }

  /** p is the first member met from k: the member the key is routed to. */
  ghost predicate IsRoute(pos: Process -> Slot, m: set<Process>, k: Slot, p: Process) {
    p in m && forall q :: q in m ==> Dist(k, pos(p)) <= Dist(k, pos(q))
  }

  /** q is the last member met before p. */
  ghost predicate IsPredecessor(pos: Process -> Slot, m: set<Process>, p: Process, q: Process) {
    q in m && q != p && forall x :: x in m && x != p ==> Dist(pos(q), pos(p)) <= Dist(pos(x), pos(p))
  }

  lemma RouteExists(pos: Process -> Slot, m: set<Process>, k: Slot)
    requires m != {}
    ensures exists p :: IsRoute(pos, m, k, p)
  {
    var x :| x in m;
    var rest := m - {x};
    if rest == {} {
      assert m == {x};
      assert IsRoute(pos, m, k, x);
    } else {
      RouteExists(pos, rest, k);
      var p :| IsRoute(pos, rest, k, p);
      assert forall q :: q in m ==> q == x || q in rest;
      if Dist(k, pos(p)) <= Dist(k, pos(x)) {
        assert IsRoute(pos, m, k, p);
      } else {
        assert IsRoute(pos, m, k, x);
      }
    }
  }

  ghost function Route(pos: Process -> Slot, m: set<Process>, k: Slot): (p: Process)
    requires m != {}
    ensures IsRoute(pos, m, k, p)
  {
    RouteExists(pos, m, k);
    var p :| IsRoute(pos, m, k, p);
    p
  }

  lemma RouteUnique(pos: Process -> Slot, m: set<Process>, k: Slot, p: Process, q: Process)
    requires CollisionFree(pos, m)
    requires IsRoute(pos, m, k, p) && IsRoute(pos, m, k, q)
    ensures p == q
  {
    assert Dist(k, pos(p)) == Dist(k, pos(q));
  }

  lemma RouteIsReplica(pos: Process -> Slot, m: set<Process>, k: Slot, p: Process, r: nat)
    requires IsRoute(pos, m, k, p) && r > 0
    ensures p in Replicas(pos, m, k, r)
  {
    assert Closer(pos, m, k, p) == {};
  }

  /** Stability: growing the membership never makes an old member a replica it was not before. */
  lemma ReplicasShrink(pos: Process -> Slot, m: set<Process>, m': set<Process>, k: Slot, r: nat)
    requires m <= m'
    ensures Replicas(pos, m', k, r) * m <= Replicas(pos, m, k, r)
  {
    forall p | p in Replicas(pos, m', k, r) && p in m
      ensures p in Replicas(pos, m, k, r)
    {
      SubsetCardinality(Closer(pos, m, k, p), Closer(pos, m', k, p));
    }
  }

  /** Adding one process gives each key a replica set contained in its old one plus that process. */
  lemma JoinStability(pos: Process -> Slot, m: set<Process>, p: Process, k: Slot, r: nat)
    ensures Replicas(pos, m + {p}, k, r) <= Replicas(pos, m, k, r) + {p}
  {
    ReplicasShrink(pos, m, m + {p}, k, r);
  }

  /** Removing processes keeps every surviving old replica. */
  lemma FailStability(pos: Process -> Slot, m: set<Process>, f: set<Process>, k: Slot, r: nat)
    ensures Replicas(pos, m, k, r) - f <= Replicas(pos, m - f, k, r)
  {
    ReplicasShrink(pos, m - f, m, k, r);
  }

  // ---- When one round of Converge restores full replication ----

  /** A file of key k that the members h of n store is pushed at all after the change from o to n: by the new primary,
      or to it by the old one from directly behind. */
  ghost predicate Moves(pos: Process -> Slot, o: set<Process>, n: set<Process>, k: Slot, h: set<Process>)
    requires o != {} && n != {}
  {
    var was, now := Route(pos, o, k), Route(pos, n, k);
    now in h || (was in h && IsPredecessor(pos, n, was, now))
  }

  /** ... and reaches every new replica, whoever pushes first: the new primary stores it, or is alone in lacking it. */
  ghost predicate Repairable(pos: Process -> Slot, o: set<Process>, n: set<Process>, k: Slot, h: set<Process>)
    requires o != {} && n != {}
  {
    var now := Route(pos, n, k);
    Moves(pos, o, n, k, h) && (now in h || Replicas(pos, n, k, REPLICA_COUNT) <= h + {now})
  }

  /** The change repairs the files of key k that all old replicas stored. */
  ghost predicate Coverable(pos: Process -> Slot, o: set<Process>, n: set<Process>, k: Slot)
    requires o != {} && n != {}
  {
    Repairable(pos, o, n, k, Replicas(pos, o, k, REPLICA_COUNT) * n)
  }

  lemma MoreHoldersRepairable(pos: Process -> Slot, o: set<Process>, n: set<Process>, k: Slot, h: set<Process>,
                              h': set<Process>)
    requires o != {} && n != {} && h <= h' && Repairable(pos, o, n, k, h)
    ensures Repairable(pos, o, n, k, h')
  {
  }

  /** A joiner that becomes the primary of k lands directly in front of the old primary. */
  lemma JoinerPrecedesOldRoute(pos: Process -> Slot, m: set<Process>, p: Process, k: Slot, was: Process)
    requires p !in m && CollisionFree(pos, m + {p})
    requires IsRoute(pos, m, k, was) && IsRoute(pos, m + {p}, k, p)
    ensures IsPredecessor(pos, m + {p}, was, p)
  {
    assert pos(was) != pos(p);
    forall x | x in m + {p} && x != was
      ensures Dist(pos(p), pos(was)) <= Dist(pos(x), pos(was))
    {
      if x != p {
        assert pos(x) != pos(was);
        assert Dist(k, pos(was)) <= Dist(k, pos(x));
        assert Dist(k, pos(p)) <= Dist(k, pos(was));
      }
    }
  }

  /** One join: every key is coverable. */
  lemma JoinCoverable(pos: Process -> Slot, m: set<Process>, p: Process, k: Slot)
    requires m != {} && p !in m && CollisionFree(pos, m + {p})
    ensures Coverable(pos, m, m + {p}, k)
  {
    var n := m + {p};
    var was, now := Route(pos, m, k), Route(pos, n, k);
    if now == p {
      RouteIsReplica(pos, m, k, was, REPLICA_COUNT);
      JoinerPrecedesOldRoute(pos, m, p, k, was);
      JoinStability(pos, m, p, k, REPLICA_COUNT);
    } else {
      assert IsRoute(pos, m, k, now);
      RouteIsReplica(pos, m, k, now, REPLICA_COUNT);
    }
  }

  /** Fewer simultaneous failures than replicas, with a survivor: every key is coverable. */
  lemma FailCoverable(pos: Process -> Slot, m: set<Process>, f: set<Process>, k: Slot)
    requires f <= m && f != m && |f| < REPLICA_COUNT
    ensures m - f != {}
    ensures Coverable(pos, m, m - f, k)
  {
    SubsetCardinality(f, m);
    var x :| x in m && x !in f;
    assert x in m - f;
    var now := Route(pos, m - f, k);
    assert Closer(pos, m, k, now) <= f;
    SubsetCardinality(Closer(pos, m, k, now), f);
  }

  /** Losing all four replicas at once, with other members left, is not. */
  lemma FourFailuresNotCoverable(pos: Process -> Slot, m: set<Process>, k: Slot)
    requires CollisionFree(pos, m) && |m| > 4
    ensures var f := Replicas(pos, m, k, REPLICA_COUNT);
            |f| == 4 && m - f != {} && m != {} && !Coverable(pos, m, m - f, k)
  {
    var f := Replicas(pos, m, k, REPLICA_COUNT);
    ReplicaCount(pos, m, k, REPLICA_COUNT);
    hide Replicas;
    if m <= f {
      SubsetCardinality(m, f);
    }
    assert m - f != {} by {
      var x :| x in m && x !in f;
      assert x in m - f;
    }
    assert f * (m - f) == {};
  }

  /** Two joins into one arc: a key routed past both joiners is never coverable, whatever the ring. */
  lemma TwoJoinsSameArc(pos: Process -> Slot, m: set<Process>, p1: Process, p2: Process, k: Slot)
    requires m != {} && p1 !in m && p2 !in m && CollisionFree(pos, m + {p1, p2})
    requires Dist(k, pos(p1)) < Dist(k, pos(p2)) < Dist(k, pos(Route(pos, m, k)))
    ensures !Coverable(pos, m, m + {p1, p2}, k)
  {
    var n := m + {p1, p2};
    var was, now := Route(pos, m, k), Route(pos, n, k);
    assert IsRoute(pos, n, k, p1) by {
      assert forall q :: q in n ==> q == p1 || q == p2 || q in m;
    }
    RouteUnique(pos, n, k, now, p1);
    assert Dist(pos(p2), pos(was)) < Dist(pos(p1), pos(was));
    assert p2 in n && p2 != was;
    assert !IsPredecessor(pos, n, was, p1);
  }

  // ---- How many replicas there are, and how many a change displaces ----

  ghost predicate Farthest(pos: Process -> Slot, m: set<Process>, k: Slot, y: Process) {
    y in m && forall q :: q in m ==> Dist(k, pos(q)) <= Dist(k, pos(y))
  }

  lemma FarthestExists(pos: Process -> Slot, m: set<Process>, k: Slot)
    requires m != {}
    ensures exists y :: Farthest(pos, m, k, y)
  {
    var x :| x in m;
    var rest := m - {x};
    assert forall q :: q in m ==> q == x || q in rest;
    if rest == {} {
      assert Farthest(pos, m, k, x);
    } else {
      FarthestExists(pos, rest, k);
      var y :| Farthest(pos, rest, k, y);
      assert Farthest(pos, m, k, if Dist(k, pos(x)) <= Dist(k, pos(y)) then y else x);
    }
  }

  /** The farthest member is in nobody's way, and everybody is in its. */
  lemma WithoutFarthest(pos: Process -> Slot, m: set<Process>, k: Slot, y: Process, r: nat)
    requires CollisionFree(pos, m) && Farthest(pos, m, k, y)
    ensures y in m && CollisionFree(pos, m - {y}) && y !in Replicas(pos, m - {y}, k, r)
    ensures |m| <= r ==> Replicas(pos, m, k, r) == Replicas(pos, m - {y}, k, r) + {y}
    ensures |m| > r ==> Replicas(pos, m, k, r) == Replicas(pos, m - {y}, k, r)
  {
    var rest := m - {y};
    hide Dist;
    forall x | x in m
      ensures Closer(pos, m, k, x) == if x == y then rest else Closer(pos, rest, k, x)
    {
      OnlyFarthest(pos, m, k, x, y);
    }
  }

  lemma OnlyFarthest(pos: Process -> Slot, m: set<Process>, k: Slot, x: Process, y: Process)
    requires CollisionFree(pos, m) && Farthest(pos, m, k, y) && x in m
    ensures Closer(pos, m, k, x) == if x == y then m - {y} else Closer(pos, m - {y}, k, x)
  {
    forall q | q in m && q != y
      ensures Dist(k, pos(q)) < Dist(k, pos(y))
    {
      assert pos(q) != pos(y);
    }
  }

  /** A key has r replicas, or all members when there are fewer. */
  lemma {:induction false} ReplicaCount(pos: Process -> Slot, m: set<Process>, k: Slot, r: nat)
    requires CollisionFree(pos, m)
    ensures |Replicas(pos, m, k, r)| == Min(|m|, r)
  {
    hide Replicas, Farthest, CollisionFree;
    if m == {} {
      NoReplicas(pos, k, r);
    } else {
      FarthestExists(pos, m, k);
      var y :| Farthest(pos, m, k, y);
      var rest := m - {y};
      WithoutFarthest(pos, m, k, y, r);
      ReplicaCount(pos, rest, k, r);
      OneMore(rest, y);
      assert rest + {y} == m;
      assert |rest| == |m| - 1;
      OneMore(Replicas(pos, rest, k, r), y);
    }
  }

  lemma NoReplicas(pos: Process -> Slot, k: Slot, r: nat)
    ensures Replicas(pos, {}, k, r) == {}
  {
  }

  lemma OneMore(s: set<Process>, y: Process)
    requires y !in s
    ensures |s + {y}| == |s| + 1
  {
  }

  /** One join displaces at most one replica, and none while there are fewer members than replicas. */
  lemma JoinDisplaces(pos: Process -> Slot, m: set<Process>, p: Process, k: Slot, r: nat)
    requires p !in m && CollisionFree(pos, m + {p})
    ensures |Replicas(pos, m, k, r) - Replicas(pos, m + {p}, k, r)| <= if |m| < r then 0 else 1
  {
    ReplicaCount(pos, m, k, r);
    ReplicaCount(pos, m + {p}, k, r);
    JoinStability(pos, m, p, k, r);
    hide Replicas, CollisionFree;
    Displaced(Replicas(pos, m, k, r), Replicas(pos, m + {p}, k, r), p);
  }

  lemma Displaced(ro: set<Process>, rn: set<Process>, p: Process)
    requires rn <= ro + {p}
    ensures |ro - rn| <= |ro| - |rn| + 1
  {
    var both := ro * rn;
    SubsetCardinality(rn, both + {p});
    assert ro - rn == ro - both;
  }

  /** Failures displace only those that fail. */
  lemma FailDisplaces(pos: Process -> Slot, m: set<Process>, f: set<Process>, k: Slot, r: nat)
    ensures |Replicas(pos, m, k, r) - Replicas(pos, m - f, k, r)| <= |f|
  {
    FailStability(pos, m, f, k, r);
    SubsetCardinality(Replicas(pos, m, k, r) - Replicas(pos, m - f, k, r), f);
  }
}
