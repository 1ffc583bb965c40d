/** One SDFS server (sdfs/server.go, sdfs/service.go): the local computations of Converge, the
    transfer of files to a peer, and Recycle. Their results are the steps of modules Replication and FileStores. */
module SdfsServers {
  import opened Api
  import opened Placement
  import opened HashRings
  import opened FileTables
  import opened FileStores
  import LfuSpec
  import Replication
  import Sequencers

  datatype MemAction = MemberDelete | MemberInsert | MemberLeaved
  datatype SignalEvent = SignalEvent(action: MemAction, process: Process)

  /** What one Converge sends, and to whom. */
  datatype Plan = Plan(
    predecessor: Option<Process>, routedFiles: seq<string>,
    successors: seq<Process>, mainFiles: seq<string>)

  ghost function PlannedPushes(plan: Plan): set<Replication.Push> {
    (if plan.predecessor.Some? then
     set f | f in plan.routedFiles :: Replication.Push(plan.predecessor.value, f) else {})
    + (set x, f | x in plan.successors && f in plan.mainFiles :: Replication.Push(x, f))
  }

  function LayoutOf(hash: string -> nat): Replication.Layout {
    Replication.Layout(Pos(hash), (f: string) => HomeSlot(hash, f))
  }

  function Routed(hash: string -> nat, r: seq<HashNode>, file: string): Option<Process> {
    if r == [] then None else Some(r[Start(r, HomeSlot(hash, file))].process)
  }

  /** The files among some that a ring routes to a process. */
  ghost function RoutedTo(hash: string -> nat, r: seq<HashNode>, files: set<string>, p: Process): set<string> {
    set f | f in files && Routed(hash, r, f) == Some(p)
  }

  lemma RoutedIsRoute(hash: string -> nat, r: seq<HashNode>, file: string, p: Process)
    requires IsRing(hash, r)
    ensures Routed(hash, r, file) == Some(p) <==> IsRoute(Pos(hash), Members(r), HomeSlot(hash, file), p)
  {
    if r != [] {
      var k := HomeSlot(hash, file);
      RouteMeaning(hash, r, k);
      RingCollisionFree(hash, r);
      if IsRoute(Pos(hash), Members(r), k, p) {
        RouteUnique(Pos(hash), Members(r), k, p, r[Start(r, k)].process);
      }
    }
  }

  lemma PredecessorUnique(pos: Process -> Slot, m: set<Process>, p: Process, x: Process, y: Process)
    requires CollisionFree(pos, m) && IsPredecessor(pos, m, p, x) && IsPredecessor(pos, m, p, y)
    ensures x == y
  {
    assert Dist(pos(x), pos(p)) == Dist(pos(y), pos(p));
  }

  /** FindSuccessors with count 3 gives the three members after p. */
  lemma SuccessorsMeaning(hash: string -> nat, r: seq<HashNode>, p: Process)
    requires IsRing(hash, r) && p in Members(r)
    ensures Present(hash, r, p)
    ensures Elements(NextOf(hash, r, p, REPLICA_COUNT - 1)) == Replication.Successors(LayoutOf(hash), Members(r), p)
  {
    IndexOfMember(hash, r, p);
    var k := Pos(hash)(p);
    assert Start(r, k) == IndexOf(r, k);
    RingCollisionFree(hash, r);
    RouteMeaning(hash, r, k);
    hide IsRing, Members, NextOf, ReplicaList, IndexOf, Start, NoDuplicates, Replicas, IsRoute, CollisionFree;
    ReplicasAreRouteThenSuccessors(hash, r, k);
    ReplicasMeaning(hash, r, k, REPLICA_COUNT);
    TailElements(ReplicaList(r, k, REPLICA_COUNT), p, NextOf(hash, r, p, REPLICA_COUNT - 1));
    SuccessorsWithoutRoute(hash, Members(r), k, p);
  }

  lemma TailElements(w: seq<Process>, p: Process, rest: seq<Process>)
    requires w == [p] + rest && NoDuplicates(w)
    ensures Elements(rest) == Elements(w) - {p}
  {
    assert forall i :: 0 <= i < |rest| ==> rest[i] == w[i + 1] && w[0] != w[i + 1];
  }

  lemma SuccessorsWithoutRoute(hash: string -> nat, n: set<Process>, k: Slot, p: Process)
    requires CollisionFree(Pos(hash), n) && IsRoute(Pos(hash), n, k, p)
    ensures Replicas(Pos(hash), n, k, REPLICA_COUNT) - {p} == Replication.Successors(LayoutOf(hash), n, p)
  {
    Replication.ReplicasAreRouteAndSuccessors(LayoutOf(hash), n, k, p);
    assert p !in Replication.Successors(LayoutOf(hash), n, p);
  }

  /** What one Converge computes once the ring is r'. */
  ghost predicate PlanFor(hash: string -> nat, r': seq<HashNode>, p: Process, table: set<string>, plan: Plan,
                          prev: seq<string>) {
    && Elements(plan.mainFiles) == RoutedTo(hash, r', table, p)
    && (plan.predecessor.Some? <==> |r'| > 1)
    && (plan.predecessor.Some? ==>
          && IsPredecessor(Pos(hash), Members(r'), p, plan.predecessor.value)
          && Elements(plan.routedFiles) == RoutedTo(hash, r', Elements(prev), plan.predecessor.value))
    && Elements(plan.successors) == Replication.Successors(LayoutOf(hash), Members(r'), p)
  }

  /** What the finders return makes up the plan. */
  lemma PlanMade(hash: string -> nat, r: seq<HashNode>, p: Process, table: set<string>, plan: Plan, prev: seq<string>)
    requires IsRing(hash, r) && p in Members(r)
    requires Elements(plan.mainFiles) == RoutedTo(hash, r, table, p)
    requires plan.predecessor.Some? <==> |r| > 1 && Present(hash, r, p)
    requires |r| > 1 ==> plan.predecessor.Some? && IsPredecessor(Pos(hash), Members(r), p, plan.predecessor.value)
    requires plan.predecessor.Some? ==>
      Elements(plan.routedFiles) == RoutedTo(hash, r, Elements(prev), plan.predecessor.value)
    requires plan.successors == NextOf(hash, r, p, 3)
    ensures PlanFor(hash, r, p, table, plan, prev)
  {
    hide IsRing, Members, IsPredecessor, NextOf, Present, RoutedTo, Replication.Successors;
    SuccessorsMeaning(hash, r, p);
  }

  /** The lists Converge computes are the pushes of the protocol step. */
  lemma PlanIsPushes(hash: string -> nat, r: seq<HashNode>, r': seq<HashNode>, p: Process, table: set<string>,
                     plan: Plan, prev: seq<string>)
    requires IsRing(hash, r) && IsRing(hash, r') && p in Members(r')
    requires Elements(prev) == RoutedTo(hash, r, table, p)
    requires PlanFor(hash, r', p, table, plan, prev)
    ensures PlannedPushes(plan) == Replication.Pushes(LayoutOf(hash), Members(r), Members(r'), p, table)
  {
    var l, n := LayoutOf(hash), Members(r');
    RingCollisionFree(hash, r');
    forall x, f
      ensures Replication.Push(x, f) in PlannedPushes(plan) <==>
        Replication.Push(x, f) in Replication.Pushes(l, Members(r), n, p, table)
    {
      RoutedIsRoute(hash, r, f, p);
      RoutedIsRoute(hash, r', f, p);
      RoutedIsRoute(hash, r', f, x);
      assert x in plan.successors <==> x in Elements(plan.successors);
      assert f in plan.mainFiles <==> f in Elements(plan.mainFiles);
      assert f in plan.routedFiles <==> f in Elements(plan.routedFiles);
      assert f in prev <==> f in Elements(prev);
      if IsPredecessor(l.pos, n, p, x) {
        MembersCount(hash, r');
        assert {x, p} <= n;
        SubsetCardinality({x, p}, n);
        PredecessorUnique(l.pos, n, p, x, plan.predecessor.value);
      }
    }
    assert PlannedPushes(plan) == Replication.Pushes(l, Members(r), n, p, table) by {
      forall q: Replication.Push
        ensures q in PlannedPushes(plan) <==> q in Replication.Pushes(l, Members(r), n, p, table)
      {
        assert q == Replication.Push(q.to, q.file);
      }
    }
  }

  // ---- Copying versions to a peer ----

  /** The versions whose file can be read from disk, in order. */
  function Sendable(vs: seq<FileVersion>, disk: map<string, Data>): (ss: seq<FileVersion>)
    ensures forall v :: v in ss <==> v in vs && v.concatName in disk
  {
    if vs == [] then []
    else
      var last := vs[|vs| - 1];
      var rest := Sendable(vs[..|vs| - 1], disk);
      assert vs == vs[..|vs| - 1] + [last];
      if last.concatName in disk then rest + [last] else rest
  }

  lemma {:induction false} SendableKeeps(vs: seq<FileVersion>, disk: map<string, Data>)
    ensures ClashFree(vs) ==> ClashFree(Sendable(vs, disk))
    ensures (forall v :: v in vs ==> v.concatName in disk) ==> Sendable(vs, disk) == vs
  {
    if vs != [] {
      var n := |vs| - 1;
      assert vs == vs[..n] + [vs[n]];
      SendableKeeps(vs[..n], disk);
      if ClashFree(vs) {
        assert vs[n] !in vs[..n];
      }
    }
  }

  function InsertedAll(t: Table, file: string, vs: seq<FileVersion>): Table {
    if vs == [] then t
    else Inserted(InsertedAll(t, file, vs[..|vs| - 1]), WriteRecord(file, vs[|vs| - 1]))
  }

  /** A disk onto which the data of some versions was copied. */
  function Copied(onto: map<string, Data>, vs: seq<FileVersion>, from: map<string, Data>): (d: map<string, Data>)
    requires forall v :: v in vs ==> v.concatName in from
    ensures forall v :: v in vs ==> v.concatName in d && d[v.concatName] == from[v.concatName]
    ensures forall n :: n in onto ==> n in d && (d[n] == onto[n] || exists v :: v in vs && v.concatName == n)
  {
    if vs == [] then onto
    else
      var last := vs[|vs| - 1];
      assert vs == vs[..|vs| - 1] + [last];
      Copied(onto, vs[..|vs| - 1], from)[last.concatName := from[last.concatName]]
  }

  lemma InsertedAllMore(t: Table, file: string, vs: seq<FileVersion>, v: FileVersion)
    ensures InsertedAll(t, file, vs + [v]) == Inserted(InsertedAll(t, file, vs), WriteRecord(file, v))
  {
    assert (vs + [v])[..|vs|] == vs;
  }

  lemma InsertNew(t: Table, file: string, vs: seq<FileVersion>, v: FileVersion)
    requires Versions(t, file) == vs && !Duplicate(vs, v)
    ensures Inserted(t, WriteRecord(file, v)) == t[file := vs + [v]]
  {
  }

  lemma LastIsNew(vs: seq<FileVersion>, v: FileVersion)
    requires ClashFree(vs + [v])
    ensures ClashFree(vs) && !Duplicate(vs, v)
  {
    var all := vs + [v];
    assert all[|vs|] == v && forall i :: 0 <= i < |vs| ==> all[i] == vs[i];
    assert v !in vs;
    assert forall w :: w in vs ==> w in all;
  }

  lemma CopyOneMore(t: Table, file: string, vs: seq<FileVersion>, v: FileVersion)
    requires file !in t && !Duplicate(vs, v) && InsertedAll(t, file, vs) == if vs == [] then t else t[file := vs]
    ensures InsertedAll(t, file, vs + [v]) == t[file := vs + [v]]
  {
    hide Inserted, Duplicate, InsertedAll;
    InsertNew(InsertedAll(t, file, vs), file, vs, v);
    InsertedAllMore(t, file, vs, v);
  }

  /** Sending a file's versions to a table without the file copies them. */
  lemma {:induction false} CopyMissing(t: Table, file: string, vs: seq<FileVersion>)
    requires ClashFree(vs) && file !in t
    ensures InsertedAll(t, file, vs) == if vs == [] then t else t[file := vs]
  {
    hide Clashes, ClashFree, Inserted, Duplicate, InsertedAll;
    if vs == [] {
      SentNothing(t, file);
    } else {
      var n := |vs| - 1;
      assert vs == vs[..n] + [vs[n]];
      LastIsNew(vs[..n], vs[n]);
      CopyMissing(t, file, vs[..n]);
      CopyOneMore(t, file, vs[..n], vs[n]);
    }
  }

  lemma SentNothing(t: Table, file: string)
    ensures InsertedAll(t, file, []) == t
  {
  }

  /** Sending versions the table already has changes nothing. */
  lemma {:induction false} ResendKnown(t: Table, file: string, vs: seq<FileVersion>)
    requires file in t && forall v :: v in vs ==> v in t[file]
    ensures InsertedAll(t, file, vs) == t
  {
    if vs != [] {
      var n := |vs| - 1;
      ResendKnown(t, file, vs[..n]);
      assert vs[n] in t[file] && Clashes(vs[n], vs[n]);
    }
  }

  /** What Recycle keeps of a file table: the files whose new replica set contains p. */
  ghost function Kept(hash: string -> nat, m: set<Process>, p: Process, t: Table): Table {
    map f | f in t && p in Replicas(Pos(hash), m, HomeSlot(hash, f), REPLICA_COUNT) :: t[f]
  }

  lemma KeptByRing(hash: string -> nat, r: seq<HashNode>, p: Process, t: Table)
    requires IsRing(hash, r)
    ensures Kept(hash, Members(r), p, t)
         == map f | f in t && p in ReplicaList(r, HomeSlot(hash, f), REPLICA_COUNT) :: t[f]
  {
    forall f | f in t
      ensures p in ReplicaList(r, HomeSlot(hash, f), REPLICA_COUNT)
         <==> p in Replicas(Pos(hash), Members(r), HomeSlot(hash, f), REPLICA_COUNT)
    {
      var w := ReplicaList(r, HomeSlot(hash, f), REPLICA_COUNT);
      ReplicasMeaning(hash, r, HomeSlot(hash, f), REPLICA_COUNT);
      assert p in w <==> p in Elements(w);
    }
  }

  lemma SendableMore(versions: seq<FileVersion>, i: nat, disk: map<string, Data>)
    requires i < |versions|
    ensures Sendable(versions[..i + 1], disk)
         == Sendable(versions[..i], disk) + if versions[i].concatName in disk then [versions[i]] else []
  {
    assert versions[..i + 1][..i] == versions[..i];
  }

  lemma CopiedMore(d: map<string, Data>, vs: seq<FileVersion>, v: FileVersion, disk: map<string, Data>)
    requires (forall w :: w in vs ==> w.concatName in disk) && v.concatName in disk
    ensures Copied(d, vs + [v], disk) == Copied(d, vs, disk)[v.concatName := disk[v.concatName]]
  {
    assert v in vs + [v] && forall w :: w in vs ==> w in vs + [v];
    assert (vs + [v])[..|vs|] == vs;
  }

  /** The next version is new to a table that lacked the file, and a duplicate in one that had it. */
  lemma NewOrKnown(t: Table, file: string, vs: seq<FileVersion>, v: FileVersion)
    requires ClashFree(vs + [v])
    ensures file !in t ==> !Duplicate(Versions(InsertedAll(t, file, vs), file), v)
    ensures (forall w :: w in vs + [v] ==> w in Versions(t, file)) ==>
      Duplicate(Versions(InsertedAll(t, file, vs), file), v)
  {
    if file !in t {
      LastIsNew(vs, v);
      CopyMissing(t, file, vs);
    } else if forall w :: w in vs + [v] ==> w in Versions(t, file) {
      assert forall w :: w in vs ==> w in vs + [v];
      assert v in vs + [v];
      ResendKnown(t, file, vs);
      assert Clashes(v, v);
    }
  }

  /** How far a file has been sent. */
  ghost predicate Sent(t: Table, d: map<string, Data>, t': Table, d': map<string, Data>, file: string,
                       vs: seq<FileVersion>, disk: map<string, Data>)
    requires forall v :: v in vs ==> v.concatName in disk
  {
    && t' == InsertedAll(t, file, vs)
    && (file !in t ==> d' == Copied(d, vs, disk))
    && ((forall v :: v in vs ==> v in Versions(t, file)) ==> d' == d)
  }

  lemma SendNext(t: Table, d: map<string, Data>, t1: Table, d1: map<string, Data>, file: string,
                 vs: seq<FileVersion>, v: FileVersion, disk: map<string, Data>)
    requires ClashFree(vs + [v])
    requires (forall w :: w in vs ==> w.concatName in disk) && v.concatName in disk
    requires Sent(t, d, t1, d1, file, vs, disk)
    ensures var t2 := Inserted(t1, WriteRecord(file, v));
            var d2 := if Duplicate(Versions(t1, file), v) then d1 else d1[v.concatName := disk[v.concatName]];
            Sent(t, d, t2, d2, file, vs + [v], disk)
  {
    hide Duplicate, Inserted, InsertedAll, Copied, ClashFree;
    InsertedAllMore(t, file, vs, v);
    CopiedMore(d, vs, v, disk);
    NewOrKnown(t, file, vs, v);
    assert forall w :: w in vs ==> w in vs + [v];
  }

  lemma PrefixClashFree(vs: seq<FileVersion>, i: nat)
    requires ClashFree(vs) && i <= |vs|
    ensures ClashFree(vs[..i])
  {
    assert forall v :: v in vs[..i] ==> v in vs;
  }

  /** The peer has, besides its own, exactly the listed files it lacked, with what could be sent of them. */
  ghost predicate Transferred(src: Table, disk: map<string, Data>, t: Table, t': Table, files: seq<string>) {
    && (forall f :: f in t' <==> f in t || (f in files && Sendable(Versions(src, f), disk) != []))
    && (forall f :: f in t' ==> t'[f] == if f in t then t[f] else Sendable(Versions(src, f), disk))
  }

  /** Data for what is new, and nothing else overwritten. */
  ghost predicate DataMoved(disk: map<string, Data>, t: Table, d: map<string, Data>, t': Table, d': map<string, Data>) {
    && (forall f, v :: Lists(t', f, v) && f !in t ==>
          v.concatName in disk && v.concatName in d' && d'[v.concatName] == disk[v.concatName])
    && (forall n :: n in d ==> n in d' && (d'[n] == d[n] || (n in disk && d'[n] == disk[n])))
  }

  lemma TransferNext(name: Naming, src: Table, disk: map<string, Data>, t: Table, d: map<string, Data>,
                     t1: Table, d1: map<string, Data>, t2: Table, d2: map<string, Data>, files: seq<string>, f: string)
    requires WellFormed(name, src) && f !in t
    requires Transferred(src, disk, t, t1, files) && DataMoved(disk, t, d, t1, d1)
    requires Sent(t1, d1, t2, d2, f, Sendable(Versions(src, f), disk), disk)
    ensures Transferred(src, disk, t, t2, files + [f]) && DataMoved(disk, t, d, t2, d2)
  {
    hide WellFormed, ClashFree, Versions, Sendable, Copied, Transferred, DataMoved, Sent;
    var vs := Sendable(Versions(src, f), disk);
    SendableClashFree(name, src, f, disk);
    SentWhole(t1, d1, t2, d2, f, vs, disk);
    TransferOne(src, disk, t, d, t1, d1, t2, d2, files, f);
  }

  lemma SendableClashFree(name: Naming, src: Table, f: string, disk: map<string, Data>)
    requires WellFormed(name, src)
    ensures ClashFree(Sendable(Versions(src, f), disk))
  {
    StoredInOrder(name, src, f);
    SendableKeeps(Versions(src, f), disk);
  }

  lemma TransferOne(src: Table, disk: map<string, Data>, t: Table, d: map<string, Data>, t1: Table,
                    d1: map<string, Data>,
                    t2: Table, d2: map<string, Data>, files: seq<string>, f: string)
    requires f !in t && Transferred(src, disk, t, t1, files) && DataMoved(disk, t, d, t1, d1)
    requires var vs := Sendable(Versions(src, f), disk);
             if f in t1 then t1[f] == vs ==> t2 == t1 && d2 == d1
             else t2 == (if vs == [] then t1 else t1[f := vs]) && d2 == Copied(d1, vs, disk)
    ensures Transferred(src, disk, t, t2, files + [f]) && DataMoved(disk, t, d, t2, d2)
  {
    hide Versions, Sendable, Copied, DataMoved;
    TransferredOne(src, disk, t, t1, files, f);
    if f in t1 {
      assert t1[f] == Sendable(Versions(src, f), disk);
    } else {
      MovedOne(disk, t, d, t1, d1, f, Sendable(Versions(src, f), disk));
    }
    hide Transferred;
  }

  lemma SentWhole(t: Table, d: map<string, Data>, t': Table, d': map<string, Data>, f: string,
                  vs: seq<FileVersion>, disk: map<string, Data>)
    requires ClashFree(vs) && (forall v :: v in vs ==> v.concatName in disk) && Sent(t, d, t', d', f, vs, disk)
    ensures f in t && t[f] == vs ==> t' == t && d' == d
    ensures f !in t ==> t' == (if vs == [] then t else t[f := vs]) && d' == Copied(d, vs, disk)
  {
    hide InsertedAll, ClashFree;
    if f !in t {
      CopyMissing(t, f, vs);
    } else if t[f] == vs {
      ResendKnown(t, f, vs);
    }
  }

  lemma TransferredOne(src: Table, disk: map<string, Data>, t: Table, t1: Table, files: seq<string>, f: string)
    requires f !in t && Transferred(src, disk, t, t1, files)
    ensures var vs := Sendable(Versions(src, f), disk);
            Transferred(src, disk, t, if f in t1 || vs == [] then t1 else t1[f := vs], files + [f])
  {
    hide Sendable;
  }

  lemma MovedOne(disk: map<string, Data>, t: Table, d: map<string, Data>, t1: Table, d1: map<string, Data>, f: string,
                 vs: seq<FileVersion>)
    requires DataMoved(disk, t, d, t1, d1) && f !in t1 && f !in t && forall v :: v in vs ==> v.concatName in disk
    ensures DataMoved(disk, t, d, if vs == [] then t1 else t1[f := vs], Copied(d1, vs, disk))
  {
    var t2, d2 := if vs == [] then t1 else t1[f := vs], Copied(d1, vs, disk);
    forall n | n in d1
      ensures n in d2 && (d2[n] == d1[n] || (n in disk && d2[n] == disk[n]))
    {
      if d2[n] != d1[n] {
        var v :| v in vs && v.concatName == n;
      }
    }
    forall g, v | Lists(t2, g, v) && g !in t
      ensures v.concatName in disk && v.concatName in d2 && d2[v.concatName] == disk[v.concatName]
    {
      if g != f {
        assert Lists(t1, g, v);
      }
    }
  }

  lemma TransferDone(src: Table, disk: map<string, Data>, t: Table, t': Table, missing: seq<string>, files: seq<string>)
    requires Transferred(src, disk, t, t', missing) && forall f :: f in missing <==> f in files && f !in t
    ensures Transferred(src, disk, t, t', files)
  {
  }

  lemma AllSendable(name: Naming, s: Store, f: string)
    requires Inv(name, s) && s.writing == multiset{}
    ensures Sendable(Versions(s.table, f), s.disk) == Versions(s.table, f)
    ensures f in s.table ==> s.table[f] != []
  {
    forall v | v in Versions(s.table, f)
      ensures v.concatName in s.disk
    {
      assert Lists(s.table, f, v);
    }
    hide Inv;
    SendableKeeps(Versions(s.table, f), s.disk);
  }

  /** When every listed version has its data, whole files are sent. */
  lemma AllTransferred(name: Naming, s: Store, t: Table, t': Table, files: seq<string>)
    requires Inv(name, s) && s.writing == multiset{} && Transferred(s.table, s.disk, t, t', files)
    ensures t'.Keys == t.Keys + (set f | f in files && f in s.table)
    ensures forall f :: f in t' && f !in t ==> f in s.table && t'[f] == s.table[f]
  {
    hide Inv, Sendable;
    forall f
      ensures f in t' <==> f in t.Keys + (set g | g in files && g in s.table)
      ensures f in t' && f !in t ==> f in s.table && t'[f] == s.table[f]
    {
      AllSendable(name, s, f);
    }
  }

  /** A peer none of whose new versions is waiting to be deleted stays in order. */
  lemma ReceivedInv(name: Naming, disk: map<string, Data>, s: Store, s': Store)
    requires Inv(name, s) && WellFormed(name, s'.table) && DataMoved(disk, s.table, s.disk, s'.table, s'.disk)
    requires s'.pool == s.pool && s'.removing == s.removing && s.writing == multiset{}
    requires forall f :: f in s.table ==> f in s'.table && s'.table[f] == s.table[f]
    ensures (forall f, v :: Lists(s'.table, f, v) && f !in s.table ==>
              v.concatName !in s.pool && v.concatName !in s.removing)
      ==> Inv(name, s')
  {
    hide WellFormed;
    assert forall f, v :: Lists(s'.table, f, v) && f in s.table ==> Lists(s.table, f, v);
  }

  /** What became of a disk write: when it fails, the file is as it was, or cut off. */
  datatype DiskResult = Written | Failed(left: Option<Data>)

  function DiskAfter(disk: map<string, Data>, name: string, data: Data, result: DiskResult): map<string, Data> {
    match result
    case Written => disk[name := data]
    case Failed(left) => if left.Some? then disk[name := left.value] else disk
  }

  /** Two halves of a write request that brings something new, one of a duplicate. */
  ghost function WriteSteps(name: Naming, s: Store, push: Step, result: DiskResult): seq<Step>
    requires push.Accept?
  {
    var w := Pending(name(push.file, push.sequence), push.data);
    if IsNew(name, s, push) then [push, if result.Written? then Persist(w) else Fail(w, result.left)] else [push]
  }

  ghost function Drops(files: seq<string>): (steps: seq<Step>)
    ensures |steps| == |files| && forall i :: 0 <= i < |files| ==> steps[i] == Drop(files[i])
  {
    seq(|files|, i requires 0 <= i < |files| => Drop(files[i]))
  }

  lemma ExecTwo(name: Naming, s: Store, step: Step, next: Step)
    requires Enabled(s, step) && Enabled(Apply(name, s, step), next)
    ensures Exec(name, s, [step, next]) == Some(Apply(name, Apply(name, s, step), next))
  {
    ExecOne(name, s, step);
    ExecMore(name, s, [step], next);
    assert [step] + [next] == [step, next];
  }

  /** A new version's way through the cache to the disk is a run of the store. */
  lemma WriteRuns(name: Naming, s: Store, push: Step, result: DiskResult)
    requires push.Accept? && IsNew(name, s, push) && !Crashes(name, s, push) && s.writing == multiset{}
    ensures var n := name(push.file, push.sequence);
      Exec(name, s, WriteSteps(name, s, push, result))
      == Some(s.(table := Inserted(s.table, WriteRecord(push.file, Version(name, push.file, push.sequence, push.id))),
                 disk := DiskAfter(s.disk, n, push.data, result),
                 cache := CachePut(s.cache, n, push.data)))
  {
    hide LfuSpec.Put, Duplicate, Inserted;
    var w := Pending(name(push.file, push.sequence), push.data);
    var next := if result.Written? then Persist(w) else Fail(w, result.left);
    ExecTwo(name, s, push, next);
    assert Apply(name, Apply(name, s, push), next).writing == multiset{};
  }

  lemma WriteGenuine(name: Naming, content: Content, s: Store, push: Step)
    requires Injective(name) && Genuine(name, content, s) && push.Accept? && Brings(content, push)
    ensures !Crashes(name, s, push)
    ensures forall r: Store ::
      Exec(name, s, WriteSteps(name, s, push, Written)) == Some(r) ==> Genuine(name, content, r)
  {
    var w, s1 := Pending(name(push.file, push.sequence), push.data), Apply(name, s, push);
    GenuineStep(name, content, s, push);
    ExecOne(name, s, push);
    if IsNew(name, s, push) {
      assert w in s1.writing;
      GenuineStep(name, content, s1, Persist(w));
      ExecTwo(name, s, push, Persist(w));
    }
  }

  /** What is on one server's disk and what another keeps is the clients' data. */
  ghost predicate CanSend(name: Naming, content: Content, disk: map<string, Data>, s: Store) {
    Injective(name) && DiskGenuine(name, content, disk) && Genuine(name, content, s)
  }

  /** The data of a name, from the cache first. */
  function Found(c: LfuSpec.Cache, disk: map<string, Data>, name: string): Option<Data> {
    var data := LfuSpec.Result(c, name);
    if data.Some? then data else if name in disk then Some(disk[name]) else None
  }

  lemma FoundGenuine(name: Naming, content: Content, s: Store, file: string, v: FileVersion)
    requires Genuine(name, content, s) && v.concatName == name(file, v.sequence)
    ensures var data := Found(s.cache, s.disk, v.concatName); data.Some? ==> data.value == content(file, v.sequence)
  {
    CacheHitGenuine(name, content, s.cache, v.concatName);
  }

  lemma HitRuns(name: Naming, s: Store, t: Table, key: string)
    requires Enabled(s, Reorder(t))
    ensures Exec(name, s, [Reorder(t)] + [Hit(key)]) == Some(s.(table := t, cache := LfuSpec.Get(s.cache, key)))
  {
    hide LfuSpec.Get;
    ExecOne(name, s, Reorder(t));
    ExecMore(name, s, [Reorder(t)], Hit(key));
  }

  lemma DropsMore(name: Naming, s: Store, files: seq<string>, file: string)
    requires Exec(name, s, Drops(files)).Some? && file in Exec(name, s, Drops(files)).value.table
    ensures Exec(name, s, Drops(files + [file])) == Some(Apply(name, Exec(name, s, Drops(files)).value, Drop(file)))
  {
    ExecMore(name, s, Drops(files), Drop(file));
    assert Drops(files + [file]) == Drops(files) + [Drop(file)];
  }

  class SdfsServer {
    const self: Process
    const naming: Naming
    const table: FileTable
    const ring: HashRing
    var signal: seq<SignalEvent>
    var deletePool: seq<string>
    var disk: map<string, Data>
    var cache: LfuSpec.Cache  // what the linked lists of its LFUCache stand for
    var seqCounter: nat

    constructor (self: Process, hash: string -> nat, naming: Naming)
      ensures this.self == self && this.naming == naming && ring.nodes == [] && ring.hash == hash
      ensures Contents() == EMPTY && Valid() && seqCounter == 0
      ensures signal == [] && fresh(table) && fresh(ring)
    {
      this.self := self;
      this.naming := naming;
      table := new FileTable();
      ring := new HashRing(hash);
      signal, deletePool := [], [];
      disk, cache, seqCounter := map[], LfuSpec.Cache([], 0), 0;
    }

    /** What the server keeps, between requests. */
    ghost function Contents(): Store
      reads this, table
    {
      Store(table.files, disk, multiset{}, deletePool, {}, cache)
    }

    ghost predicate Valid()
      reads this, table
    {
      WellFormed(naming, table.files)
    }

    /** The leader numbers a request, unless its ring has not settled. */
    method FetchSequence(expiring: bool) returns (sequence: Option<Sequence>)
      modifies this`seqCounter
      ensures sequence.Some? <==> signal == [] && !expiring
      ensures seqCounter == old(seqCounter) + if sequence.Some? then 1 else 0
      ensures sequence.Some? ==> sequence.value == Sequencers.Ticket(self, seqCounter).Stamp()
    {
      if signal != [] || expiring {
        return None;
      }
      seqCounter := seqCounter + 1;
      return Some(Sequence(self.joinTime, Sequencers.Int32(seqCounter)));
    }

    /** A write request. A duplicate is acknowledged unchanged; otherwise the version enters the table and the cache,
        then the disk. Absent stands for a crash in the cache, which does not happen as long as data is what was
        written under the sequence. */
    method Write(file: string, data: Data, sequence: Sequence, id: WriteId, result: DiskResult, ghost content: Content)
      returns (reply: Option<bool>)
      requires Valid()
      modifies this`disk, this`cache, table
      ensures Valid()
      ensures reply.None? <==> Crashes(naming, old(Contents()), Accept(file, data, sequence, id))
      ensures reply.Some? ==>
        var s, push, fv := old(Contents()), Accept(file, data, sequence, id), Version(naming, file, sequence, id);
        && table.files == Inserted(s.table, WriteRecord(file, fv))
        && disk == (if IsNew(naming, s, push) then DiskAfter(s.disk, fv.concatName, data, result) else s.disk)
        && Exec(naming, s, WriteSteps(naming, s, push, result)) == Some(Contents())
        && (reply.value <==> IsNew(naming, s, push) ==> result.Written?)
        && (IsNew(naming, s, push) && |data| <= 10485760 ==>
              LfuSpec.Put(s.cache, fv.concatName, data, 104857600) == Some(cache))
        && (!IsNew(naming, s, push) || |data| > 10485760 ==> cache == s.cache)
      ensures Injective(naming) && Genuine(naming, content, old(Contents())) && data == content(file, sequence) ==>
        reply.Some? && (result.Written? ==> Genuine(naming, content, Contents()))
    {
      ghost var s, push := Contents(), Accept(file, data, sequence, id);
      InsertKeepsWellFormed(naming, table.files, file, sequence, id);
      if Injective(naming) && Genuine(naming, content, s) && data == content(file, sequence) {
        WriteGenuine(naming, content, s, push);
      }
      hide WellFormed, Duplicate, Genuine, Injective, LfuSpec.Put;
      var name := naming(file, sequence);
      var ok := table.Insert(file, FileVersion(name, sequence, id));
      if !ok {
        ExecOne(naming, s, push);
        return Some(true);
      }
      if |data| <= CACHE_LIMIT {
        var put := LfuSpec.Put(cache, name, data, CACHE_SIZE);
        if put == None {
          return None;
        }
        cache := put.value;
      }
      disk := DiskAfter(disk, name, data, result);
      WriteRuns(naming, s, push, result);
      return Some(result.Written?);
    }

    /** A read request: the sequence and the data of the version-th newest version, the data from the cache, if it is
        there, or else from disk: what was written under that sequence. */
    method Read(file: string, version: int, ghost content: Content)
      returns (reply: Option<(Sequence, Data)>, ghost hits: seq<Step>)
      requires Valid() && version >= 1
      modifies this`cache, table
      ensures Valid() && Exec(naming, old(Contents()), [Reorder(table.files)] + hits) == Some(Contents())
      ensures var vs := Elements(Versions(old(table.files), file));
        match reply
        case Some((sequence, data)) =>
          exists fv: FileVersion :: IsAnswer(vs, version, Some(fv)) && sequence == fv.sequence
            && Some(data) == Found(old(cache), disk, fv.concatName)
        case None =>
          forall fv: FileVersion :: IsAnswer(vs, version, Some(fv)) ==> Found(old(cache), disk, fv.concatName) == None
      ensures cache == old(cache) || exists fv: FileVersion ::
        IsAnswer(Elements(Versions(old(table.files), file)), version, Some(fv)) &&
        cache == LfuSpec.Get(old(cache), fv.concatName)
      ensures reply.Some? ==> exists fv: FileVersion ::
        IsAnswer(Elements(Versions(old(table.files), file)), version, Some(fv)) &&
        cache == LfuSpec.Get(old(cache), fv.concatName)
      ensures Inv(naming, old(Contents())) ==> (reply.Some? <==> version <= |Versions(old(table.files), file)|)
      ensures Genuine(naming, content, old(Contents())) && reply.Some? ==> reply.value.1 == content(file, reply.value.0)
    {
      ghost var s, vs := Contents(), Versions(table.files, file);
      StoredInOrder(naming, table.files, file);
      var fv := table.Get(file, version);
      ReorderKeeps(s.table, table.files);
      ExecOne(naming, s, Reorder(table.files));
      forall x: FileVersion | IsAnswer(Elements(vs), version, Some(x))
        ensures fv == Some(x)
      {
        AnswerUnique(Elements(vs), version, fv, Some(x));
      }
      hits := [];
      if fv == None {
        assert [Reorder(table.files)] + hits == [Reorder(table.files)];
        return None, hits;
      }
      assert Lists(s.table, file, fv.value);
      hide IsAnswer, WellFormed, Exec, Enabled, LfuSpec.Get, LfuSpec.Result;
      var name := fv.value.concatName;
      if Genuine(naming, content, s) {
        FoundGenuine(naming, content, s, file, fv.value);
      }
      hits := [Hit(name)];
      HitRuns(naming, s, table.files, name);
      hide Genuine;
      var data := LfuSpec.Result(cache, name);
      cache := LfuSpec.Get(cache, name);
      if data.Some? {
        return Some((fv.value.sequence, data.value)), hits;
      }
      if name !in disk {
        return None, hits;
      }
      return Some((fv.value.sequence, disk[name])), hits;
    }

    /** A delete request: the file leaves the table, its names wait in the pool. */
    method Delete(file: string)
      requires Valid()
      modifies this`deletePool, table
      ensures Valid()
      ensures Exec(naming, old(Contents()), if file in old(table.files) then [Drop(file)] else []) == Some(Contents())
    {
      if file !in table.files {
        return;
      }
      ExecOne(naming, Contents(), Drop(file));
      DropFile(file);
    }

    /** A membership change wakes the server. */
    method OnMemberUpdate(action: MemAction, process: Process)
      modifies this`signal
      ensures signal == old(signal) + [SignalEvent(action, process)]
    {
      signal := signal + [SignalEvent(action, process)];
    }

    /** The stored files among candidates that the current ring routes to a process. */
    method FilesRoutedTo(candidates: set<string>, p: Process) returns (files: seq<string>)
      ensures NoDuplicates(files)
      ensures Elements(files) == RoutedTo(ring.hash, ring.nodes, candidates, p)
    {
      files := [];
      var todo := candidates;
      while todo != {}
        invariant todo <= candidates && NoDuplicates(files)
        invariant forall f :: f in files <==>
          f in candidates && f !in todo && Routed(ring.hash, ring.nodes, f) == Some(p)
        decreases todo
      {
        var file :| file in todo;
        var route := ring.GetRouteProcess(file);
        todo := todo - {file};
        if route == Some(p) {
          files := files + [file];
        }
      }
    }

    /** The locked part of Converge: refresh the ring and decide what to push. */
    method BeginConverge(membership: seq<Process>, expiring: bool) returns (plan: Option<Plan>)
      modifies ring
      ensures plan.Some? <==> signal != [] && membership != [] && !expiring
      ensures plan == None ==> ring.nodes == old(ring.nodes)
      ensures plan.Some? && DistinctHomes(ring.hash, membership) ==>
        IsRing(ring.hash, ring.nodes) && Members(ring.nodes) == Elements(membership)
      ensures plan.Some? && IsRing(ring.hash, old(ring.nodes)) && DistinctHomes(ring.hash, membership) &&
              self in membership ==>
        PlannedPushes(plan.value)
        == Replication.Pushes(LayoutOf(ring.hash), Members(old(ring.nodes)),
                              Elements(membership), self, table.files.Keys)
    {
      if signal == [] || membership == [] || expiring {
        return None;
      }
      hide PlannedPushes, Replication.Pushes, IsRing, Members, RoutedTo, DistinctHomes, PlanFor;
      ghost var was := ring.nodes;
      var prevMainFiles := FilesRoutedTo(table.files.Keys, self);
      ring.Refresh(membership);
      var p := MakePlan(prevMainFiles);
      if IsRing(ring.hash, was) && DistinctHomes(ring.hash, membership) && self in membership {
        PlanIsPushes(ring.hash, was, ring.nodes, self, table.files.Keys, p, prevMainFiles);
      }
      return Some(p);
    }

    /** Decide what to send, now that the ring is refreshed. */
    method MakePlan(prevMainFiles: seq<string>) returns (plan: Plan)
      ensures IsRing(ring.hash, ring.nodes) && self in Members(ring.nodes) ==>
        PlanFor(ring.hash, ring.nodes, self, table.files.Keys, plan, prevMainFiles)
    {
      hide Replication.Successors, NextOf, Present, IsRing, Members, Routed, RoutedTo, IsPredecessor, PlanFor;
      var currMainFiles := FilesRoutedTo(table.files.Keys, self);
      var predecessor := ring.FindPredecessor(self);
      var successors := ring.FindSuccessors(self, 3);
      var routedFiles := [];
      if predecessor.Some? {
        var candidates := set f | f in prevMainFiles;
        assert candidates == Elements(prevMainFiles);
        routedFiles := FilesRoutedTo(candidates, predecessor.value);
      }
      plan := Plan(predecessor, routedFiles, successors, currMainFiles);
      if IsRing(ring.hash, ring.nodes) && self in Members(ring.nodes) {
        PlanMade(ring.hash, ring.nodes, self, table.files.Keys, plan, prevMainFiles);
      }
    }

    /** All transfers are done. */
    method FinishConverge()
      modifies this`signal
      ensures signal == []
    {
      signal := [];
    }

    /** The files of a request this server does not store. */
    method BulkLookup(filenames: seq<string>) returns (missing: seq<string>)
      ensures forall f :: f in missing <==> f in filenames && f !in table.files
    {
      missing := [];
      for i := 0 to |filenames|
        invariant forall f :: f in missing <==> f in filenames[..i] && f !in table.files
      {
        if filenames[i] !in table.files {
          missing := missing + [filenames[i]];
        }
      }
      assert filenames[..|filenames|] == filenames;
    }

    /** Send one file, version by version; a version that cannot be read from disk is left out. */
    method TransferFile(peer: SdfsServer, file: string, ghost content: Content) returns (crashed: bool)
      requires peer != this && peer.table != table && peer.naming == naming && Valid() && peer.Valid()
      modifies peer`disk, peer`cache, peer.table
      ensures peer.Valid()
      ensures !crashed ==> Sent(old(peer.table.files), old(peer.disk), peer.table.files, peer.disk, file,
                                Sendable(Versions(table.files, file), disk), disk)
      ensures CanSend(naming, content, disk, old(peer.Contents())) ==>
        !crashed && Genuine(naming, content, peer.Contents())
    {
      var versions := Versions(table.files, file);
      StoredInOrder(naming, table.files, file);
      ghost var t, d, s := peer.table.files, peer.disk, peer.Contents();
      ghost var vs: seq<FileVersion> := [];
      assert Sendable(versions[..0], disk) == [] && Sent(t, d, t, d, file, vs, disk);
      hide Sent, Sendable, ClashFree, Copied, InsertedAll, Valid, Genuine, CanSend;
      for idx := 0 to |versions|
        invariant peer.Valid() && vs == Sendable(versions[..idx], disk)
        invariant Sent(t, d, peer.table.files, peer.disk, file, vs, disk)
        invariant CanSend(naming, content, disk, s) ==>
          Genuine(naming, content, peer.Contents())
      {
        SendableMore(versions, idx, disk);
        if versions[idx].concatName in disk {
          PrefixClashFree(versions, idx + 1);
          SendableKeeps(versions[..idx + 1], disk);
          crashed := SendVersion(peer, file, versions[idx], content, t, d, vs);
          if crashed {
            return;
          }
          vs := vs + [versions[idx]];
        }
      }
      crashed := false;
      assert versions[..|versions|] == versions;
    }

    /** Read one version from disk and send it as a write request. */
    method SendVersion(peer: SdfsServer, file: string, version: FileVersion, ghost content: Content,
                       ghost t: Table, ghost d: map<string, Data>, ghost vs: seq<FileVersion>)
      returns (crashed: bool)
      requires peer != this && peer.table != table && peer.naming == naming && peer.Valid()
      requires version.concatName == naming(file, version.sequence) && ClashFree(vs + [version])
      requires (forall w :: w in vs ==> w.concatName in disk) && version.concatName in disk
      requires Sent(t, d, peer.table.files, peer.disk, file, vs, disk)
      modifies peer`disk, peer`cache, peer.table
      ensures peer.Valid()
      ensures !crashed ==> Sent(t, d, peer.table.files, peer.disk, file, vs + [version], disk)
      ensures CanSend(naming, content, disk, old(peer.Contents())) ==>
        !crashed && Genuine(naming, content, peer.Contents())
    {
      assert CanSend(naming, content, disk, peer.Contents()) ==>
        && Injective(naming) && Genuine(naming, content, peer.Contents())
        && disk[version.concatName] == content(file, version.sequence);
      hide DiskGenuine, Injective;
      hide Sent, ClashFree, Exec, Valid, WriteSteps, Inserted, Duplicate, Genuine, CanSend, Crashes;
      SendNext(t, d, peer.table.files, peer.disk, file, vs, version, disk);
      var reply := peer.Write(file, disk[version.concatName], version.sequence, version.id, Written, content);
      crashed := reply == None;
    }

    /** Send every listed file the peer lacks, all its versions that can be read, with their data, nothing else. */
    method TransferFiles(peer: SdfsServer, files: seq<string>, ghost content: Content) returns (crashed: bool)
      requires peer != this && peer.table != table && peer.naming == naming && Valid() && peer.Valid()
      modifies peer`disk, peer`cache, peer.table
      ensures peer.Valid()
      ensures CanSend(naming, content, disk, old(peer.Contents())) ==>
        !crashed && Genuine(naming, content, peer.Contents())
      ensures !crashed ==> Transferred(table.files, disk, old(peer.table.files), peer.table.files, files)
      ensures !crashed ==> DataMoved(disk, old(peer.table.files), old(peer.disk), peer.table.files, peer.disk)
      ensures !crashed && Inv(naming, Contents()) ==>
        && peer.table.files.Keys == old(peer.table.files).Keys + (set f | f in files && f in table.files)
        && (forall f :: f in peer.table.files && f !in old(peer.table.files) ==> peer.table.files[f] == table.files[f])
      ensures !crashed && Inv(naming, old(peer.Contents()))
        && (forall f, v :: Lists(peer.table.files, f, v) && f !in old(peer.table.files) ==>
              v.concatName !in peer.deletePool)
        ==> Inv(naming, peer.Contents())
    {
      var missing := peer.BulkLookup(files);
      ghost var t, d, s := peer.table.files, peer.disk, peer.Contents();
      for i := 0 to |missing|
        invariant peer.Valid() && Valid()
        invariant CanSend(naming, content, disk, s) ==>
          Genuine(naming, content, peer.Contents())
        invariant Transferred(table.files, disk, t, peer.table.files, missing[..i])
        invariant DataMoved(disk, t, d, peer.table.files, peer.disk)
      {
        hide Transferred, DataMoved, Sendable, InsertedAll, Copied, WellFormed, Genuine, CanSend;
        ghost var t1, d1 := peer.table.files, peer.disk;
        crashed := TransferFile(peer, missing[i], content);
        if crashed {
          return;
        }
        assert missing[..i + 1] == missing[..i] + [missing[i]];
        TransferNext(naming, table.files, disk, t, d, t1, d1, peer.table.files, peer.disk, missing[..i], missing[i]);
      }
      crashed := false;
      assert missing[..|missing|] == missing;
      hide WellFormed, Genuine, CanSend;
      TransferDone(table.files, disk, t, peer.table.files, missing, files);
      hide Transferred;
      if Inv(naming, Contents()) {
        AllTransferred(naming, Contents(), t, peer.table.files, files);
      }
      if Inv(naming, s) {
        ReceivedInv(naming, disk, s, peer.Contents());
      }
    }

    /** Delete the oldest name of the pool from disk; then, when stable, drop every file this server does not
        replicate. */
    method Recycle(membership: seq<Process>, expiring: bool) returns (ghost dropped: seq<string>)
      requires Valid()
      modifies this`deletePool, this`disk, ring, table
      ensures Valid()
      ensures Exec(naming, old(Contents()),
                   (if old(deletePool) == [] then [] else [Take, Erase(old(deletePool)[0])]) + Drops(dropped))
           == Some(Contents())
      ensures old(deletePool) != [] ==>
        disk == old(disk) - {old(deletePool)[0]} && old(deletePool)[1..] <= deletePool
      ensures old(deletePool) == [] ==> disk == old(disk)
      ensures signal != [] || expiring ==> dropped == [] && ring.nodes == old(ring.nodes)
      ensures signal == [] && !expiring && DistinctHomes(ring.hash, membership) ==>
        && IsRing(ring.hash, ring.nodes) && Members(ring.nodes) == Elements(membership)
        && table.files == Kept(ring.hash, Elements(membership), self, old(table.files))
        && NoDuplicates(dropped) && Elements(dropped) == old(table.files).Keys - table.files.Keys
    {
      ghost var s, pop := Contents(), if deletePool == [] then [] else [Take, Erase(deletePool[0])];
      dropped := [];
      if deletePool != [] {
        ExecTwo(naming, s, Take, Erase(deletePool[0]));
        disk := disk - {deletePool[0]};
        deletePool := deletePool[1..];
        assert {s.pool[0]} - {s.pool[0]} == {};
      }
      ghost var s1 := Contents();
      assert Exec(naming, s, pop) == Some(s1);
      hide Exec, Apply, Enabled;
      if signal == [] && !expiring {
        ring.Refresh(membership);
        dropped := ScanTable();
        if DistinctHomes(ring.hash, membership) {
          KeptByRing(ring.hash, ring.nodes, self, old(table.files));
        }
      } else {
        NoDrops(naming, s1);
      }
      ExecConcat(naming, s, pop, Drops(dropped));
    }

    /** Remove the files the ring no longer assigns to this server. */
    method ScanTable() returns (ghost dropped: seq<string>)
      requires Valid()
      modifies this`deletePool, table
      ensures Valid() && Exec(naming, old(Contents()), Drops(dropped)) == Some(Contents())
      ensures table.files == map f | f in old(table.files)
        && self in ReplicaList(ring.nodes, HomeSlot(ring.hash, f), REPLICA_COUNT) :: old(table.files)[f]
      ensures NoDuplicates(dropped) && Elements(dropped) == old(table.files).Keys - table.files.Keys
      ensures old(deletePool) <= deletePool
    {
      ghost var s := Contents();
      ghost var gone :=
        set f | f in table.files && self !in ReplicaList(ring.nodes, HomeSlot(ring.hash, f), REPLICA_COUNT);
      dropped := [];
      NoDrops(naming, s);
      var todo := table.files.Keys;
      ScanStart(table.files, gone);
      hide Exec, Apply, Enabled, WellFormed, ReplicaList, Scanned;
      while todo != {}
        invariant todo <= s.table.Keys && Scanned(s.table, table.files, gone, todo, dropped)
        invariant Exec(naming, s, Drops(dropped)) == Some(Contents()) && Valid() && old(deletePool) <= deletePool
        decreases todo
      {
        var file :| file in todo;
        var replicas := ring.FindReplicas(file, REPLICA_COUNT);
        ScanNext(s.table, table.files, gone, todo, dropped, file);
        if self !in replicas {
          DropsMore(naming, s, dropped, file);
          DroppedTable(naming, Contents(), file);
          DropFile(file);
          dropped := dropped + [file];
        }
        todo := todo - {file};
      }
      ScanDone(s.table, table.files, gone, dropped);
      ScanKept(s.table, table.files, gone);
    }

    method DropFile(file: string)
      requires Valid() && file in table.files
      modifies this`deletePool, table
      ensures Valid() && Enabled(old(Contents()), Drop(file))
      ensures Contents() == Apply(naming, old(Contents()), Drop(file))
      ensures deletePool == old(deletePool) + Names(old(table.files)[file])
    {
      PushVersions(table.files[file]);
      table.files := table.files - {file};
    }

    method PushVersions(versions: seq<FileVersion>)
      modifies this`deletePool
      ensures deletePool == old(deletePool) + Names(versions)
    {
      for i := 0 to |versions|
        invariant deletePool == old(deletePool) + Names(versions)[..i]
      {
        deletePool := deletePool + [versions[i].concatName];
      }
    }
  }

  lemma StoredInOrder(name: Naming, t: Table, file: string)
    requires WellFormed(name, t)
    ensures var vs := Versions(t, file);
            ClashFree(vs) && NoDuplicates(vs) && DistinctSequences(Elements(vs))
            && forall v :: v in vs ==> v.concatName == name(file, v.sequence)
  {
    var vs := Versions(t, file);
    forall v | v in vs
      ensures v.concatName == name(file, v.sequence)
    {
      assert Lists(t, file, v);
    }
    assert forall x, y :: x in vs && y in vs && x.sequence == y.sequence ==> Clashes(x, y);
  }

  lemma DroppedTable(name: Naming, s: Store, file: string)
    requires file in s.table
    ensures Enabled(s, Drop(file)) && Apply(name, s, Drop(file)).table == s.table - {file}
  {
  }

  /** The files still to do aside, exactly those that must go are gone, each dropped once. */
  ghost predicate Scanned(was: Table, now: Table, gone: set<string>, todo: set<string>, dropped: seq<string>) {
    now == was - (gone - todo) && NoDuplicates(dropped) && Elements(dropped) == gone - todo
  }

  lemma ScanStart(t: Table, gone: set<string>)
    requires gone <= t.Keys
    ensures Scanned(t, t, gone, t.Keys, [])
  {
    assert gone - t.Keys == {};
  }

  lemma ScanNext(was: Table, now: Table, gone: set<string>, todo: set<string>, dropped: seq<string>, file: string)
    requires file in todo && todo <= was.Keys && Scanned(was, now, gone, todo, dropped)
    ensures file in now
    ensures file in gone ==> Scanned(was, now - {file}, gone, todo - {file}, dropped + [file])
    ensures file !in gone ==> Scanned(was, now, gone, todo - {file}, dropped)
  {
    if file in gone {
      assert gone - (todo - {file}) == gone - todo + {file};
      assert Elements(dropped + [file]) == Elements(dropped) + {file};
      assert file !in Elements(dropped);
    } else {
      assert gone - (todo - {file}) == gone - todo;
    }
  }

  lemma ScanDone(was: Table, now: Table, gone: set<string>, dropped: seq<string>)
    requires gone <= was.Keys && Scanned(was, now, gone, {}, dropped)
    ensures now == was - gone && NoDuplicates(dropped) && Elements(dropped) == was.Keys - now.Keys
  {
    assert gone - {} == gone;
  }

  lemma ScanKept(was: Table, now: Table, gone: set<string>)
    requires now == was - gone
    ensures now == map f | f in was && f !in gone :: was[f]
  {
  }

  lemma NoDrops(name: Naming, s: Store)
    ensures Exec(name, s, Drops([])) == Some(s)
  {
    assert Drops([]) == [];
  }
}
