/** Which files one round of Converge brings to all their replicas, whatever the membership change, whoever stores the
    file, and in whatever order the members converge (sdfs/server.go). */
module Coverage {
  import opened Api
  import opened Placement
  import opened Replication
  import opened Durability

  /** One whole Converge at p, its pushes delivered. */
  ghost function ConvergeAt(l: Layout, o: set<Process>, n: set<Process>, tables: map<Process, Listing>, p: Process)
    : (r: map<Process, Listing>)
    requires p in tables
    ensures r.Keys == tables.Keys
  {
    var pushes := Pushes(l, o, n, p, tables[p].Keys);
    map x | x in tables ::
      map f | f in tables[x].Keys + tables[p].Keys && (f in tables[x] || Push(x, f) in pushes) ::
        if f in tables[x] then tables[x][f] else tables[p][f]
  }

  ghost function ConvergeAll(l: Layout, o: set<Process>, n: set<Process>, tables: map<Process, Listing>,
                             order: seq<Process>)
    : (r: map<Process, Listing>)
    requires forall p :: p in order ==> p in tables
    ensures r.Keys == tables.Keys
  {
    if order == [] then tables
    else ConvergeAll(l, o, n, ConvergeAt(l, o, n, tables, order[0]), order[1..])
  }

  /** What one Converge does to the set of members holding f. */
  ghost function Spread(l: Layout, o: set<Process>, n: set<Process>, k: Slot, p: Process): set<Process>
    requires o != {} && n != {}
  {
    var was, now := Route(l.pos, o, k), Route(l.pos, n, k);
    (if p == was && IsPredecessor(l.pos, n, was, now) then {now} else {})
    + (if p == now then Replicas(l.pos, n, k, REPLICA_COUNT) else {})
  }

  lemma ConvergeSpreads(l: Layout, o: set<Process>, n: set<Process>, tables: map<Process, Listing>, p: Process,
                        f: string)
    requires o != {} && CollisionFree(l.pos, o) && CollisionFree(l.pos, n)
    requires tables.Keys == n && p in n
    ensures Holders(ConvergeAt(l, o, n, tables, p), f)
         == Holders(tables, f) + (if f in tables[p] then Spread(l, o, n, l.key(f), p) else {})
  {
    hide Closer, Pushes, IsRoute;
    var k := l.key(f);
    var was, now := Route(l.pos, o, k), Route(l.pos, n, k);
    var tables' := ConvergeAt(l, o, n, tables, p);
    forall x | x in n
      ensures f in tables'[x] <==> f in tables[x] || (f in tables[p] && x in Spread(l, o, n, k, p))
    {
      if f in tables[p] {
        PushSpreads(l, o, n, tables[p].Keys, p, f, x);
      }
    }
  }

  lemma PushSpreads(l: Layout, o: set<Process>, n: set<Process>, table: set<string>, p: Process, f: string, x: Process)
    requires o != {} && CollisionFree(l.pos, o) && CollisionFree(l.pos, n)
    requires p in n && f in table && x in n
    ensures Push(x, f) in Pushes(l, o, n, p, table) ==> x in Spread(l, o, n, l.key(f), p)
    ensures x in Spread(l, o, n, l.key(f), p) && x != p ==> Push(x, f) in Pushes(l, o, n, p, table)
  {
    var k := l.key(f);
    var was, now := Route(l.pos, o, k), Route(l.pos, n, k);
    if Push(x, f) in Pushes(l, o, n, p, table) {
      PushedOnlyThere(l, o, n, p, table, f, x);
      if IsRoute(l.pos, n, k, p) {
        RouteUnique(l.pos, n, k, p, now);
      } else {
        RouteUnique(l.pos, o, k, p, was);
        RouteUnique(l.pos, n, k, x, now);
      }
    }
    if x in Spread(l, o, n, k, p) && x != p {
      if p == now && x in Replicas(l.pos, n, k, REPLICA_COUNT) {
        PushedToReplica(l, o, n, p, table, f, x);
      } else {
        PushedToPredecessor(l, o, n, p, table, f, x);
      }
    }
  }

  /** The member whose Converge completes the replica set of k, when those in h store the file. */
  ghost function Pusher(l: Layout, o: set<Process>, n: set<Process>, k: Slot, h: set<Process>): Process
    requires o != {} && n != {}
  {
    var now := Route(l.pos, n, k);
    if now in h then now else Route(l.pos, o, k)
  }

  lemma PusherCovers(l: Layout, o: set<Process>, n: set<Process>, tables: map<Process, Listing>, f: string, p: Process)
    requires o != {} && n != {} && CollisionFree(l.pos, o) && CollisionFree(l.pos, n) && tables.Keys == n && p in n
    requires Repairable(l.pos, o, n, l.key(f), Holders(tables, f))
    ensures if p == Pusher(l, o, n, l.key(f), Holders(tables, f))
            then ReplicasOf(l, n, f) <= Holders(ConvergeAt(l, o, n, tables, p), f)
            else Holders(ConvergeAt(l, o, n, tables, p), f) == Holders(tables, f)
  {
    ConvergeSpreads(l, o, n, tables, p, f);
    hide Replicas, IsPredecessor, IsRoute, ConvergeAt;
  }

  lemma {:induction false} EveryOrderCovers(l: Layout, o: set<Process>, n: set<Process>, tables: map<Process, Listing>,
                                            order: seq<Process>, f: string)
    requires o != {} && n != {} && CollisionFree(l.pos, o) && CollisionFree(l.pos, n)
    requires tables.Keys == n && (forall p :: p in order ==> p in n)
    requires || ReplicasOf(l, n, f) <= Holders(tables, f)
             || (Repairable(l.pos, o, n, l.key(f), Holders(tables, f))
                 && Pusher(l, o, n, l.key(f), Holders(tables, f)) in order)
    ensures ReplicasOf(l, n, f) <= Holders(ConvergeAll(l, o, n, tables, order), f)
  {
    if order != [] {
      var p := order[0];
      hide Repairable, ReplicasOf, Pusher, CollisionFree;
      ConvergeSpreads(l, o, n, tables, p, f);
      if !(ReplicasOf(l, n, f) <= Holders(tables, f)) {
        PusherCovers(l, o, n, tables, f, p);
      }
      EveryOrderCovers(l, o, n, ConvergeAt(l, o, n, tables, p), order[1..], f);
    }
  }

  /** When the new primary converges before it has the file, only the old primary can bring it over. */
  lemma {:induction false} LateOrderBound(l: Layout, o: set<Process>, n: set<Process>, tables: map<Process, Listing>,
                                          order: seq<Process>, f: string)
    requires o != {} && n != {} && CollisionFree(l.pos, o) && CollisionFree(l.pos, n)
    requires tables.Keys == n && (forall p :: p in order ==> p in n)
    requires Route(l.pos, n, l.key(f)) !in order
    ensures var was, now, h := Route(l.pos, o, l.key(f)), Route(l.pos, n, l.key(f)), Holders(tables, f);
            Holders(ConvergeAll(l, o, n, tables, order), f)
            <= h + (if was in h && IsPredecessor(l.pos, n, was, now) then {now} else {})
  {
    if order != [] {
      var tables' := ConvergeAt(l, o, n, tables, order[0]);
      ConvergeSpreads(l, o, n, tables, order[0], f);
      var was, now := Route(l.pos, o, l.key(f)), Route(l.pos, n, l.key(f));
      assert IsPredecessor(l.pos, n, was, now) ==> was != now;
      assert f in tables[order[0]] <==> order[0] in Holders(tables, f);
      hide CollisionFree, IsPredecessor, ConvergeAt, Route;
      LateOrderBound(l, o, n, tables', order[1..], f);
    }
  }

  lemma ListOf(s: set<Process>) returns (order: seq<Process>)
    ensures NoDuplicates(order) && Elements(order) == s
  {
    if s == {} {
      order := [];
    } else {
      var p :| p in s;
      var rest := ListOf(s - {p});
      order := [p] + rest;
      assert forall x :: x in rest <==> x in Elements(rest);
    }
  }

  lemma ListFrom(s: set<Process>, first: Process) returns (rest: seq<Process>)
    requires first in s
    ensures first !in rest && (forall x :: x in [first] + rest <==> x in s)
    ensures NoDuplicates([first] + rest) && Elements([first] + rest) == s
  {
    rest := ListOf(s - {first});
    assert forall x :: x in rest <==> x in Elements(rest);
  }

  ghost predicate AllOrdersCover(l: Layout, o: set<Process>, n: set<Process>, tables: map<Process, Listing>, f: string)
    requires tables.Keys == n
  {
    forall order: seq<Process> :: NoDuplicates(order) && Elements(order) == n ==>
      (assert forall p :: p in order ==> p in Elements(order);
       ReplicasOf(l, n, f) <= Holders(ConvergeAll(l, o, n, tables, order), f))
  }

  /** For an arbitrary membership change, with any number of joins and failures, and whoever stores the file: it
      reaches its whole new replica set under every order of Converge calls exactly when it is repairable. */
  lemma CoverageExact(l: Layout, o: set<Process>, n: set<Process>, tables: map<Process, Listing>, f: string)
    requires o != {} && n != {} && CollisionFree(l.pos, o) && CollisionFree(l.pos, n) && tables.Keys == n
    ensures AllOrdersCover(l, o, n, tables, f)
       <==> Repairable(l.pos, o, n, l.key(f), Holders(tables, f))
  {
    var k, h := l.key(f), Holders(tables, f);
    if Repairable(l.pos, o, n, k, h) {
      forall order: seq<Process> | NoDuplicates(order) && Elements(order) == n
        ensures (assert forall p :: p in order ==> p in Elements(order);
                 ReplicasOf(l, n, f) <= Holders(ConvergeAll(l, o, n, tables, order), f))
      {
        assert forall p :: p in n ==> p in Elements(order);
        EveryOrderCovers(l, o, n, tables, order, f);
      }
    } else {
      var order, missing := LateOrder(l, o, n, tables, f);
    }
  }

  lemma LateOrderFinal(l: Layout, o: set<Process>, n: set<Process>, tables: map<Process, Listing>, rest: seq<Process>,
                       f: string)
    requires o != {} && n != {} && CollisionFree(l.pos, o) && CollisionFree(l.pos, n)
    requires tables.Keys == n && (forall p :: p in rest ==> p in n)
    requires Route(l.pos, n, l.key(f)) !in rest && Route(l.pos, n, l.key(f)) !in Holders(tables, f)
    ensures var was, now, h := Route(l.pos, o, l.key(f)), Route(l.pos, n, l.key(f)), Holders(tables, f);
            Holders(ConvergeAll(l, o, n, tables, [now] + rest), f)
            <= h + (if was in h && IsPredecessor(l.pos, n, was, now) then {now} else {})
  {
    var now := Route(l.pos, n, l.key(f));
    var order := [now] + rest;
    assert order[0] == now && order[1..] == rest;
    var tables' := ConvergeAt(l, o, n, tables, now);
    ConvergeSpreads(l, o, n, tables, now, f);
    hide ConvergeAt, IsPredecessor, Replicas;
    LateOrderBound(l, o, n, tables', rest, f);
  }

  /** For a file that is not repairable, an order that leaves some replica without it. */
  lemma LateOrder(l: Layout, o: set<Process>, n: set<Process>, tables: map<Process, Listing>, f: string)
    returns (order: seq<Process>, missing: Process)
    requires o != {} && n != {} && CollisionFree(l.pos, o) && CollisionFree(l.pos, n) && tables.Keys == n
    requires !Repairable(l.pos, o, n, l.key(f), Holders(tables, f))
    ensures NoDuplicates(order) && Elements(order) == n && (forall p :: p in order ==> p in n)
    ensures missing in ReplicasOf(l, n, f) && missing !in Holders(ConvergeAll(l, o, n, tables, order), f)
  {
    var k, h := l.key(f), Holders(tables, f);
    var was, now := Route(l.pos, o, k), Route(l.pos, n, k);
    var rest := ListFrom(n, now);
    assert forall x :: x in rest ==> x in [now] + rest;
    LateOrderFinal(l, o, n, tables, rest, f);
    order := [now] + rest;
    RouteInReplicas(l, n, f);
    if was in h && IsPredecessor(l.pos, n, was, now) {
      missing :| missing in ReplicasOf(l, n, f) && missing !in h + {now};
    } else {
      missing := now;
    }
  }

  /** A file that does not move stays where it is, whoever converges and how often. */
  lemma {:induction false} NothingMoves(l: Layout, o: set<Process>, n: set<Process>, tables: map<Process, Listing>,
                                        order: seq<Process>, f: string)
    requires o != {} && n != {} && CollisionFree(l.pos, o) && CollisionFree(l.pos, n)
    requires tables.Keys == n && (forall p :: p in order ==> p in n)
    requires !Moves(l.pos, o, n, l.key(f), Holders(tables, f))
    ensures Holders(ConvergeAll(l, o, n, tables, order), f) == Holders(tables, f)
  {
    if order != [] {
      var p := order[0];
      ConvergeSpreads(l, o, n, tables, p, f);
      assert f in tables[p] <==> p in Holders(tables, f);
      hide CollisionFree, IsPredecessor, ConvergeAt, Replicas, Route;
      NothingMoves(l, o, n, ConvergeAt(l, o, n, tables, p), order[1..], f);
    }
  }

  /** A Put may succeed without its primary. Then no failure of others is repaired in any order, although the changes
      are coverable: the primary has nothing to push. */
  lemma MissedPrimary(l: Layout, o: set<Process>, failed: set<Process>, tables: map<Process, Listing>, f: string)
    requires |o| >= REPLICA_COUNT && CollisionFree(l.pos, o) && tables.Keys == o - failed
    requires failed <= o && |failed| < REPLICA_COUNT && Route(l.pos, o, l.key(f)) !in failed
    requires Holders(tables, f) == ReplicasOf(l, o, f) - {Route(l.pos, o, l.key(f))} - failed
    ensures |ReplicasOf(l, o, f) - {Route(l.pos, o, l.key(f))}| >= WriteLevel(o)
    ensures o - failed != {} && Coverable(l.pos, o, o - failed, l.key(f))
    ensures !AllOrdersCover(l, o, o - failed, tables, f)
    ensures forall order: seq<Process> :: (forall p :: p in order ==> p in o - failed) ==>
      Holders(ConvergeAll(l, o, o - failed, tables, order), f) == Holders(tables, f)
  {
    var n, k, was := o - failed, l.key(f), Route(l.pos, o, l.key(f));
    ReplicaCount(l.pos, o, k, REPLICA_COUNT);
    RouteInReplicas(l, o, f);
    assert was in n;
    FailCoverable(l.pos, o, failed, k);
    assert IsRoute(l.pos, n, k, was);
    RouteUnique(l.pos, n, k, was, Route(l.pos, n, k));
    RouteInReplicas(l, n, f);
    CoverageExact(l, o, n, tables, f);
    forall order: seq<Process> | forall p :: p in order ==> p in n
      ensures Holders(ConvergeAll(l, o, n, tables, order), f) == Holders(tables, f)
    {
      NothingMoves(l, o, n, tables, order, f);
    }
  }
}
