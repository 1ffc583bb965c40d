/** Reads and writes by quorum on a settled ring (sdfs/client.go, sdfs/client_action.go, sdfs/service.go):
    the client's side as loops, and the whole exchange as a state machine. */
module Quorums {
  import opened Api
  import opened Placement
  import opened HashRings
  import opened FileTables

  const READ_CONSISTENCY: nat := 2
  const WRITE_CONSISTENCY: nat := 3
  const LATEST_VERSION: nat := 1

  datatype TaskType = GetTask | PutTask | DeleteTask | ListTask

  /** The acks a client waits for on a ring of n members. */
  function ConsistencyLevel(task: TaskType, n: nat): (level: nat)
    ensures level <= n && (n > 0 ==> level > 0)
    ensures n >= 4 ==> level == if task.GetTask? then 2 else if task.PutTask? then 3 else 4
    ensures n < 4 ==> level == if task.GetTask? then Min(2, n) else n
  {
    var level := match task
      case GetTask => READ_CONSISTENCY
      case PutTask => WRITE_CONSISTENCY
      case DeleteTask => REPLICA_COUNT
      case ListTask => REPLICA_COUNT;
    Min(level, n)
  }

  // ---- The client ----

  datatype Reply = Reply(sequence: Sequence, data: Data)

  datatype Event = Ack(reply: Reply) | Timeout

  function Replies(events: seq<Event>): (rs: seq<Reply>)
    requires forall i :: 0 <= i < |events| ==> events[i].Ack?
    ensures |rs| == |events| && forall i :: 0 <= i < |rs| ==> rs[i] == events[i].reply
  {
    seq(|events|, i requires 0 <= i < |events| => events[i].reply)
  }

  /** The waiting loop of ExecuteTask: succeeds exactly when the required acks come before the timeout, and
      then with those acks in order of arrival. */
  method CollectAcks(events: seq<Event>, required: nat) returns (acks: Option<seq<Reply>>)
    ensures acks.Some? <==> required <= |events| && forall i :: 0 <= i < required ==> events[i].Ack?
    ensures acks.Some? ==> acks.value == Replies(events[..required])
  {
    var results := [];
    while true
      invariant |results| <= required && |results| <= |events|
      invariant forall i :: 0 <= i < |results| ==> events[i].Ack?
      invariant results == Replies(events[..|results|])
      decreases |events| - |results|
    {
      if |results| >= required {
        return Some(results);
      }
      if |results| == |events| || events[|results|].Timeout? {
        return None;
      }
      var n := |results|;
      results := results + [events[n].reply];
      assert results == Replies(events[..n + 1]);
    }
  }

  /** One of the replies, and none of the others is newer. */
  ghost predicate IsLatest(replies: seq<Reply>, r: Reply) {
    r in replies && forall x :: x in replies ==> !r.sequence.Less(x.sequence)
  }

  /** HandleTaskResults for a Get. */
  method LatestReply(results: seq<Reply>) returns (r: Option<Reply>)
    ensures r.Some? <==> results != []
    ensures r.Some? ==> IsLatest(results, r.value)
  {
    if |results| == 0 {
      return None;
    }
    var latest, data := results[0].sequence, results[0].data;
    for i := 0 to |results|
      invariant Reply(latest, data) in results
      invariant forall j :: 0 <= j < i ==> !latest.Less(results[j].sequence)
      invariant i == 0 ==> latest == results[0].sequence
    {
      if latest.Less(results[i].sequence) {
        latest, data := results[i].sequence, results[i].data;
      }
    }
    return Some(Reply(latest, data));
  }

  // ---- The exchange ----

  /** What stays fixed: the hash, a settled ring, and the names under which versions are stored. */
  datatype Config = Config(hash: string -> nat, ring: seq<HashNode>, name: (string, Sequence) -> string) {
    ghost predicate Valid() {
      && IsRing(hash, ring) && ring != []
      && forall f, q, f', q' :: name(f, q) == name(f', q') ==> f == f' && q == q'
    }

    ghost function ReplicasOf(file: string): set<Process> {
      Elements(ReplicaList(ring, HomeSlot(hash, file), REPLICA_COUNT))
    }

    function Level(task: TaskType): nat {
      ConsistencyLevel(task, |ring|)
    }
  }

  /** A Put under way: the replicas its request reached, the acks that came back in time, and whether the
      client has reported success. */
  datatype PutOp = PutOp(file: string, data: Data, sequence: Sequence, id: WriteId,
                         delivered: set<Process>, acks: set<Process>, done: bool)

  /** A Get under way: the Puts of its file that had succeeded when it started, the replicas' answers, and
      what the client returned. */
  datatype GetOp = GetOp(file: string, version: nat, before: set<nat>, replies: map<Process, Reply>,
                         result: Option<Reply>)

  datatype State = State(tables: map<Process, Table>, stored: map<(Process, string), Data>,
                         puts: seq<PutOp>, gets: seq<GetOp>)

  datatype Step =
    | StartPut(file: string, data: Data, sequence: Sequence, id: WriteId)
    | DeliverWrite(k: nat, p: Process)
    | StoreData(k: nat, p: Process)
    | AckWrite(k: nat, p: Process)
    | FinishPut(k: nat)
    | StartGet(file: string, version: nat)
    | AnswerRead(k: nat, p: Process, answer: FileVersion)
    | FinishGet(k: nat, order: seq<Process>, result: Reply)

  function StoredVersions(s: State, p: Process, file: string): seq<FileVersion> {
    if p in s.tables then Versions(s.tables[p], file) else []
  }

  function VersionOf(c: Config, op: PutOp): FileVersion {
    FileVersion(c.name(op.file, op.sequence), op.sequence, op.id)
  }

  ghost predicate Enabled(c: Config, s: State, step: Step) {
    match step
    // a new sequence from the leader, and a write id of its own within the file
    case StartPut(file, _, sequence, id) =>
      forall i :: 0 <= i < |s.puts| ==>
        s.puts[i].sequence != sequence && (s.puts[i].file == file ==> s.puts[i].id != id)
    // any number of times, at any time
    case DeliverWrite(k, p) => k < |s.puts| && p in c.ReplicasOf(s.puts[k].file)
    case StoreData(k, p) => k < |s.puts| && p in s.puts[k].delivered
    // a repeated request is acknowledged before the data is stored
    case AckWrite(k, p) => k < |s.puts| && p in s.puts[k].delivered && !s.puts[k].done
    case FinishPut(k) => k < |s.puts| && !s.puts[k].done && |s.puts[k].acks| >= c.Level(PutTask)
    case StartGet(_, version) => version >= 1
    case AnswerRead(k, p, answer) =>
      && k < |s.gets| && p in c.ReplicasOf(s.gets[k].file) && p !in s.gets[k].replies
      && IsAnswer(Elements(StoredVersions(s, p, s.gets[k].file)), s.gets[k].version, Some(answer))
      && (p, answer.concatName) in s.stored
    case FinishGet(k, order, result) =>
      && k < |s.gets| && s.gets[k].result.None? && NoDuplicates(order) && |order| == c.Level(GetTask)
      && (forall i :: 0 <= i < |order| ==> order[i] in s.gets[k].replies)
      && IsLatest(Arrived(s.gets[k].replies, order), result)
  }

  function Arrived(replies: map<Process, Reply>, order: seq<Process>): (rs: seq<Reply>)
    requires forall i :: 0 <= i < |order| ==> order[i] in replies
    ensures |rs| == |order| && forall i :: 0 <= i < |rs| ==> rs[i] == replies[order[i]]
  {
    seq(|order|, i requires 0 <= i < |order| => replies[order[i]])
  }

  ghost function Apply(c: Config, s: State, step: Step): State
    requires Enabled(c, s, step)
  {
    match step
    case StartPut(file, data, sequence, id) =>
      s.(puts := s.puts + [PutOp(file, data, sequence, id, {}, {}, false)])
    case DeliverWrite(k, p) =>
      var op := s.puts[k];
      var table := if p in s.tables then s.tables[p] else map[];
      s.(tables := s.tables[p := Inserted(table, WriteRecord(op.file, VersionOf(c, op)))],
         puts := s.puts[k := op.(delivered := op.delivered + {p})])
    case StoreData(k, p) =>
      s.(stored := s.stored[(p, VersionOf(c, s.puts[k]).concatName) := s.puts[k].data])
    case AckWrite(k, p) =>
      s.(puts := s.puts[k := s.puts[k].(acks := s.puts[k].acks + {p})])
    case FinishPut(k) =>
      s.(puts := s.puts[k := s.puts[k].(done := true)])
    case StartGet(file, version) =>
      var before := set i | 0 <= i < |s.puts| && s.puts[i].done && s.puts[i].file == file;
      s.(gets := s.gets + [GetOp(file, version, before, map[], None)])
    case AnswerRead(k, p, answer) =>
      var g := s.gets[k];
      s.(gets := s.gets[k := g.(replies := g.replies[p := Reply(answer.sequence, s.stored[(p, answer.concatName)])])])
    case FinishGet(k, order, result) =>
      s.(gets := s.gets[k := s.gets[k].(result := Some(result))])
  }

  // ---- What every step keeps ----

  /** Puts have their own sequence, and within a file their own write id. */
  ghost predicate PutsApart(s: State) {
    forall i, j :: 0 <= i < j < |s.puts| ==> DifferentPuts(s.puts[i], s.puts[j])
  }

  predicate DifferentPuts(a: PutOp, b: PutOp) {
    a.sequence != b.sequence && (a.file == b.file ==> a.id != b.id)
  }

  ghost predicate IsPut(c: Config, s: State, file: string, v: FileVersion, k: nat) {
    k < |s.puts| && s.puts[k].file == file && v == VersionOf(c, s.puts[k])
  }

  /** Every stored version is the version of some Put of that file. */
  ghost predicate TablesOk(c: Config, s: State) {
    forall p, f, v :: v in StoredVersions(s, p, f) ==> exists k: nat :: IsPut(c, s, f, v, k)
  }

  ghost predicate NamedBy(c: Config, s: State, x: string, d: Data, k: nat) {
    k < |s.puts| && x == VersionOf(c, s.puts[k]).concatName && d == s.puts[k].data
  }

  /** Stored data is that of the Put that chose the name. */
  ghost predicate StoredOk(c: Config, s: State) {
    forall p, x :: (p, x) in s.stored ==> exists k: nat :: NamedBy(c, s, x, s.stored[(p, x)], k)
  }

  /** A replica reached by the request has the version; acks come from such replicas; success took enough. */
  ghost predicate PutOk(c: Config, s: State, op: PutOp) {
    && op.acks <= op.delivered <= c.ReplicasOf(op.file)
    && (forall p :: p in op.delivered ==> VersionOf(c, op) in StoredVersions(s, p, op.file))
    && (op.done ==> |op.acks| >= c.Level(PutTask))
  }

  ghost predicate PutsOk(c: Config, s: State) {
    forall k :: 0 <= k < |s.puts| ==> PutOk(c, s, s.puts[k])
  }

  /** The reply carries the sequence and the data of one Put of the file. */
  ghost predicate FromPut(s: State, file: string, r: Reply) {
    exists k ::
      0 <= k < |s.puts| && s.puts[k].file == file && s.puts[k].sequence == r.sequence && s.puts[k].data == r.data
  }

  predicate NotOlder(r: Reply, op: PutOp) {
    !r.sequence.Less(op.sequence)
  }

  ghost predicate GetOk(c: Config, s: State, g: GetOp) {
    && g.version >= 1
    && (forall j :: j in g.before ==> j < |s.puts| && s.puts[j].done && s.puts[j].file == g.file)
    && g.replies.Keys <= c.ReplicasOf(g.file)
    && (forall p :: p in g.replies ==> FromPut(s, g.file, g.replies[p]))
    && (g.version == LATEST_VERSION ==>
          forall p, j :: p in g.replies && j in g.before && p in s.puts[j].acks ==> NotOlder(g.replies[p], s.puts[j]))
    && (g.result.Some? ==> FromPut(s, g.file, g.result.value))
    && (g.result.Some? && g.version == LATEST_VERSION ==>
          forall j :: j in g.before ==> NotOlder(g.result.value, s.puts[j]))
  }

  ghost predicate GetsOk(c: Config, s: State) {
    forall k :: 0 <= k < |s.gets| ==> GetOk(c, s, s.gets[k])
  }

  ghost predicate Inv(c: Config, s: State) {
    PutsApart(s) && TablesOk(c, s) && StoredOk(c, s) && PutsOk(c, s) && GetsOk(c, s)
  }

  // ---- The heart: two quorums meet ----

  /** For every ring size, a read quorum and a write quorum together outnumber the replicas. */
  lemma QuorumsOutnumber(n: nat)
    requires n > 0
    ensures ConsistencyLevel(GetTask, n) + ConsistencyLevel(PutTask, n) > Min(REPLICA_COUNT, n)
  {
  }

  /** A Put can report success exactly when three replicas acknowledged it, or all on a smaller ring. */
  lemma PutFinishesExactly(c: Config, s: State, k: nat)
    requires k < |s.puts| && !s.puts[k].done
    ensures Enabled(c, s, FinishPut(k)) <==> |s.puts[k].acks| >= Min(3, |c.ring|)
  {
  }

  ghost predicate GetCanFinish(c: Config, s: State, k: nat) {
    exists order, r :: Enabled(c, s, FinishGet(k, order, r))
  }

  /** A Get can return exactly when two replicas answered it, or one on a ring of one: with four replicas, any two may
      stay silent. */
  lemma GetFinishesExactly(c: Config, s: State, k: nat)
    requires c.ring != [] && k < |s.gets| && s.gets[k].result.None?
    ensures GetCanFinish(c, s, k) <==> |s.gets[k].replies| >= Min(2, |c.ring|)
  {
    var g, n := s.gets[k], Min(2, |c.ring|);
    assert |g.replies| == |g.replies.Keys|;
    if GetCanFinish(c, s, k) {
      var order, r :| Enabled(c, s, FinishGet(k, order, r));
      DistinctLength(order);
      SubsetCardinality(Elements(order), g.replies.Keys);
    }
    if |g.replies.Keys| >= n {
      var order := SomeOf(g.replies.Keys, n);
      assert forall i :: 0 <= i < n ==> order[i] in Elements(order);
      var r := SomeLatest(Arrived(g.replies, order));
      assert Enabled(c, s, FinishGet(k, order, r));
    }
  }

  /** A Delete or a List succeeds only when every replica of the file answered: four, or all on a smaller ring. */
  lemma EveryReplicaAnswers(c: Config, file: string, task: TaskType, acks: set<Process>)
    requires c.Valid() && (task == DeleteTask || task == ListTask) && acks <= c.ReplicasOf(file)
    ensures |c.ReplicasOf(file)| == Min(4, |c.ring|)
    ensures |acks| >= c.Level(task) <==> acks == c.ReplicasOf(file)
  {
    ReplicasMeaning(c.hash, c.ring, HomeSlot(c.hash, file), REPLICA_COUNT);
    DistinctLength(ReplicaList(c.ring, HomeSlot(c.hash, file), REPLICA_COUNT));
    hide Config.Valid, Config.ReplicasOf, ReplicaList;
    SubsetCardinality(acks, c.ReplicasOf(file));
  }

  lemma {:induction false} SomeOf(s: set<Process>, n: nat) returns (list: seq<Process>)
    requires n <= |s|
    ensures |list| == n && NoDuplicates(list) && Elements(list) <= s
  {
    if n == 0 {
      list := [];
    } else {
      var p :| p in s;
      var rest := SomeOf(s - {p}, n - 1);
      list := [p] + rest;
      assert forall x :: x in rest ==> x in Elements(rest);
    }
  }

  lemma {:induction false} SomeLatest(rs: seq<Reply>) returns (r: Reply)
    requires rs != []
    ensures IsLatest(rs, r)
  {
    var n := |rs| - 1;
    r := rs[n];
    if n > 0 {
      var best := SomeLatest(rs[..n]);
      assert forall x :: x in rs ==> x in rs[..n] || x == rs[n];
      r := if best.sequence.Less(rs[n].sequence) then rs[n] else best;
    }
  }

  lemma SetsMeet<T>(a: set<T>, b: set<T>, all: set<T>)
    requires a <= all && b <= all && |a| + |b| > |all|
    ensures exists x :: x in a && x in b
  {
    if a !! b {
      SubsetCardinality(a + b, all);
    }
  }

  lemma QuorumsMeet(c: Config, file: string, acks: set<Process>, order: seq<Process>)
    requires c.Valid() && acks <= c.ReplicasOf(file) && |acks| >= c.Level(PutTask)
    requires NoDuplicates(order) && Elements(order) <= c.ReplicasOf(file) && |order| == c.Level(GetTask)
    ensures exists p :: p in acks && p in order
  {
    ReplicasMeaning(c.hash, c.ring, HomeSlot(c.hash, file), REPLICA_COUNT);
    DistinctLength(ReplicaList(c.ring, HomeSlot(c.hash, file), REPLICA_COUNT));
    DistinctLength(order);
    QuorumsOutnumber(|c.ring|);
    SetsMeet(acks, Elements(order), c.ReplicasOf(file));
    var p :| p in acks && p in Elements(order);
    assert p in order;
  }

  /** The latest of the replies waited for is not older than the reply of some replica that acknowledged the Put. */
  lemma SharedReply(c: Config, file: string, acks: set<Process>, replies: map<Process, Reply>, order: seq<Process>,
                    r: Reply)
    returns (p: Process)
    requires c.Valid() && acks <= c.ReplicasOf(file) && |acks| >= c.Level(PutTask) && replies.Keys <= c.ReplicasOf(file)
    requires NoDuplicates(order) && |order| == c.Level(GetTask) && forall i :: 0 <= i < |order| ==> order[i] in replies
    requires IsLatest(Arrived(replies, order), r)
    ensures p in acks && p in replies && !r.sequence.Less(replies[p].sequence)
  {
    hide Config.Valid, Config.ReplicasOf, Config.Level, NoDuplicates;
    forall x | x in Elements(order)
      ensures x in c.ReplicasOf(file)
    {
      assert x in replies.Keys;
    }
    QuorumsMeet(c, file, acks, order);
    p :| p in acks && p in order;
    var i :| 0 <= i < |order| && order[i] == p;
    assert Arrived(replies, order)[i] == replies[p];
  }

  lemma LatestCovers(c: Config, s: State, g: GetOp, order: seq<Process>, r: Reply, j: nat)
    requires c.Valid() && PutsOk(c, s) && GetOk(c, s, g) && g.version == LATEST_VERSION && j in g.before
    requires NoDuplicates(order) && |order| == c.Level(GetTask)
    requires forall i :: 0 <= i < |order| ==> order[i] in g.replies
    requires IsLatest(Arrived(g.replies, order), r)
    ensures NotOlder(r, s.puts[j])
  {
    hide Config.Valid, Config.ReplicasOf, Config.Level, NoDuplicates, IsLatest, Arrived, FromPut, NotOlder;
    var op := s.puts[j];
    assert PutOk(c, s, op);
    var p := SharedReply(c, g.file, op.acks, g.replies, order, r);
    assert NotOlder(g.replies[p], op);
    NotOlderThrough(r, g.replies[p], op);
  }

  lemma NotOlderThrough(r: Reply, x: Reply, op: PutOp)
    requires !r.sequence.Less(x.sequence) && NotOlder(x, op)
    ensures NotOlder(r, op)
  {
    SequenceOrder(r.sequence, op.sequence, x.sequence);
    SequenceOrder(x.sequence, r.sequence, op.sequence);
    SequenceOrder(r.sequence, x.sequence, op.sequence);
  }

  // ---- Step by step ----

  /** The state may have more Puts, more versions and more data, and its old Puts are as they were but for
      progress. */
  ghost predicate Progress(a: PutOp, b: PutOp) {
    && b.file == a.file && b.data == a.data && b.sequence == a.sequence && b.id == a.id
    && a.delivered <= b.delivered && a.acks <= b.acks && (a.done ==> b.done && b.acks == a.acks)
  }

  ghost predicate Grows(s: State, s': State) {
    && |s.puts| <= |s'.puts| && (forall k :: 0 <= k < |s.puts| ==> Progress(s.puts[k], s'.puts[k]))
    && (forall p, f, v :: v in StoredVersions(s, p, f) ==> v in StoredVersions(s', p, f))
  }

  lemma FromPutGrows(s: State, s': State, file: string, r: Reply)
    requires Grows(s, s') && FromPut(s, file, r)
    ensures FromPut(s', file, r)
  {
    var k :| 0 <= k < |s.puts| && s.puts[k].file == file &&
      s.puts[k].sequence == r.sequence && s.puts[k].data == r.data;
    assert Progress(s.puts[k], s'.puts[k]);
  }

  lemma GetOkGrows(c: Config, s: State, s': State, g: GetOp)
    requires Grows(s, s') && GetOk(c, s, g)
    ensures GetOk(c, s', g)
  {
    forall j | j in g.before
      ensures j < |s'.puts| && Progress(s.puts[j], s'.puts[j])
    {
    }
    forall p | p in g.replies
      ensures FromPut(s', g.file, g.replies[p])
    {
      FromPutGrows(s, s', g.file, g.replies[p]);
    }
    if g.result.Some? {
      FromPutGrows(s, s', g.file, g.result.value);
    }
  }

  lemma TablesOkGrows(c: Config, s: State, s': State)
    requires Grows(s, s') && TablesOk(c, s) && s'.tables == s.tables
    ensures TablesOk(c, s')
  {
    forall p, f, v | v in StoredVersions(s', p, f)
      ensures exists k: nat :: IsPut(c, s', f, v, k)
    {
      assert v in StoredVersions(s, p, f);
      var k: nat :| IsPut(c, s, f, v, k);
      assert Progress(s.puts[k], s'.puts[k]) && IsPut(c, s', f, v, k);
    }
  }

  lemma StoredOkGrows(c: Config, s: State, s': State)
    requires Grows(s, s') && StoredOk(c, s) && s'.stored == s.stored
    ensures StoredOk(c, s')
  {
    forall p, x | (p, x) in s'.stored
      ensures exists k: nat :: NamedBy(c, s', x, s'.stored[(p, x)], k)
    {
      var k: nat :| NamedBy(c, s, x, s.stored[(p, x)], k);
      assert Progress(s.puts[k], s'.puts[k]) && NamedBy(c, s', x, s'.stored[(p, x)], k);
    }
  }

  lemma GetsOkGrows(c: Config, s: State, s': State)
    requires Grows(s, s') && GetsOk(c, s) && s'.gets == s.gets
    ensures GetsOk(c, s')
  {
    forall k | 0 <= k < |s'.gets|
      ensures GetOk(c, s', s'.gets[k])
    {
      GetOkGrows(c, s, s', s.gets[k]);
    }
  }

  /** A version that clashes with a Put's version in its file is that version. */
  lemma ClashIsSame(c: Config, s: State, k: nat, p: Process, v: FileVersion)
    requires PutsApart(s) && TablesOk(c, s) && k < |s.puts|
    requires v in StoredVersions(s, p, s.puts[k].file) && Clashes(v, VersionOf(c, s.puts[k]))
    ensures v == VersionOf(c, s.puts[k])
  {
    var j: nat :| IsPut(c, s, s.puts[k].file, v, j);
    assert j < k ==> DifferentPuts(s.puts[j], s.puts[k]);
    assert k < j ==> DifferentPuts(s.puts[k], s.puts[j]);
  }

  /** What a delivered request does to the stored versions. */
  lemma DeliveredVersions(c: Config, s: State, k: nat, p: Process, q: Process, f: string)
    requires Enabled(c, s, DeliverWrite(k, p))
    ensures var op, fv := s.puts[k], VersionOf(c, s.puts[k]);
            var vs := StoredVersions(s, p, op.file);
            StoredVersions(Apply(c, s, DeliverWrite(k, p)), q, f)
            == if q == p && f == op.file then (if Duplicate(vs, fv) then vs else vs + [fv]) else StoredVersions(s, q, f)
  {
    hide Duplicate, VersionOf;
  }

  lemma Delivered(c: Config, s: State, k: nat, p: Process)
    requires PutsApart(s) && TablesOk(c, s) && k < |s.puts|
    ensures var vs, fv := StoredVersions(s, p, s.puts[k].file), VersionOf(c, s.puts[k]); Duplicate(vs, fv) ==> fv in vs
  {
    var vs, fv := StoredVersions(s, p, s.puts[k].file), VersionOf(c, s.puts[k]);
    if Duplicate(vs, fv) {
      var v :| v in vs && Clashes(v, fv);
      hide Clashes;
      ClashIsSame(c, s, k, p, v);
    }
  }

  /** After the request reached p its table holds the version, new or already there. */
  lemma DeliverStores(c: Config, s: State, k: nat, p: Process)
    requires PutsApart(s) && TablesOk(c, s) && Enabled(c, s, DeliverWrite(k, p))
    ensures var s' := Apply(c, s, DeliverWrite(k, p));
            && VersionOf(c, s.puts[k]) in StoredVersions(s', p, s.puts[k].file)
            && (forall q, f, v :: v in StoredVersions(s, q, f) ==> v in StoredVersions(s', q, f))
            && (forall q, f, v :: v in StoredVersions(s', q, f) ==>
                  v in StoredVersions(s, q, f) || (q == p && f == s.puts[k].file && v == VersionOf(c, s.puts[k])))
  {
    var s', fv := Apply(c, s, DeliverWrite(k, p)), VersionOf(c, s.puts[k]);
    assert k < |s.puts|;
    hide Apply, Enabled, StoredVersions, Duplicate, TablesOk, PutsApart, VersionOf;
    Delivered(c, s, k, p);
    DeliveredVersions(c, s, k, p, p, s.puts[k].file);
    forall q, f, v
      ensures v in StoredVersions(s, q, f) ==> v in StoredVersions(s', q, f)
      ensures v in StoredVersions(s', q, f) ==>
        v in StoredVersions(s, q, f) || (q == p && f == s.puts[k].file && v == fv)
    {
      DeliveredVersions(c, s, k, p, q, f);
    }
  }

  lemma StartPutKeeps(c: Config, s: State, step: Step)
    requires Inv(c, s) && step.StartPut? && Enabled(c, s, step)
    ensures Inv(c, Apply(c, s, step))
  {
    var s' := Apply(c, s, step);
    assert Grows(s, s');
    TablesOkGrows(c, s, s');
    StoredOkGrows(c, s, s');
    GetsOkGrows(c, s, s');
    forall k | 0 <= k < |s'.puts|
      ensures PutOk(c, s', s'.puts[k])
    {
      assert k < |s.puts| ==> PutOk(c, s, s.puts[k]);
    }
  }

  lemma DeliverKeeps(c: Config, s: State, k: nat, p: Process)
    requires Inv(c, s) && Enabled(c, s, DeliverWrite(k, p))
    ensures Inv(c, Apply(c, s, DeliverWrite(k, p)))
  {
    var s' := Apply(c, s, DeliverWrite(k, p));
    assert s'.puts == s.puts[k := s.puts[k].(delivered := s.puts[k].delivered + {p})] &&
      p in c.ReplicasOf(s.puts[k].file);
    assert s'.stored == s.stored && s'.gets == s.gets;
    hide Apply, Enabled, GetsOk, StoredOk, StoredVersions, Config.ReplicasOf, VersionOf;
    DeliverStores(c, s, k, p);
    assert Grows(s, s');
    StoredOkGrows(c, s, s');
    GetsOkGrows(c, s, s');
    DeliverTables(c, s, s', k, p);
    hide TablesOk;
    forall i | 0 <= i < |s'.puts|
      ensures PutOk(c, s', s'.puts[i])
    {
      assert PutOk(c, s, s.puts[i]);
      DeliverPutOk(c, s, s', s.puts[i], s'.puts[i], p);
    }
  }

  lemma SameVersion(c: Config, op: PutOp, op': PutOp)
    requires op'.file == op.file && op'.sequence == op.sequence && op'.id == op.id
    ensures VersionOf(c, op') == VersionOf(c, op)
  {
  }

  lemma DeliverPutOk(c: Config, s: State, s': State, op: PutOp, op': PutOp, p: Process)
    requires PutOk(c, s, op) && Grows(s, s') && (op' == op || op' == op.(delivered := op.delivered + {p}))
    requires op' != op ==> p in c.ReplicasOf(op.file) && VersionOf(c, op) in StoredVersions(s', p, op.file)
    ensures PutOk(c, s', op')
  {
    SameVersion(c, op, op');
    hide VersionOf, StoredVersions, Config.ReplicasOf;
  }

  lemma DeliverTables(c: Config, s: State, s': State, k: nat, p: Process)
    requires TablesOk(c, s) && Grows(s, s') && k < |s.puts|
    requires forall q, f, v :: v in StoredVersions(s', q, f) ==>
      v in StoredVersions(s, q, f) || (q == p && f == s.puts[k].file && v == VersionOf(c, s.puts[k]))
    ensures TablesOk(c, s')
  {
    forall q, f, v | v in StoredVersions(s', q, f)
      ensures exists i: nat :: IsPut(c, s', f, v, i)
    {
      if v in StoredVersions(s, q, f) {
        var i: nat :| IsPut(c, s, f, v, i);
        assert Progress(s.puts[i], s'.puts[i]) && IsPut(c, s', f, v, i);
      } else {
        assert Progress(s.puts[k], s'.puts[k]) && IsPut(c, s', f, v, k);
      }
    }
  }

  lemma StoreKeeps(c: Config, s: State, k: nat, p: Process)
    requires Inv(c, s) && Enabled(c, s, StoreData(k, p))
    ensures Inv(c, Apply(c, s, StoreData(k, p)))
  {
    hide GetsOk, TablesOk;
    var s' := Apply(c, s, StoreData(k, p));
    assert Grows(s, s');
    TablesOkGrows(c, s, s');
    GetsOkGrows(c, s, s');
    forall q, x | (q, x) in s'.stored
      ensures exists i: nat :: NamedBy(c, s', x, s'.stored[(q, x)], i)
    {
      if (q, x) == (p, VersionOf(c, s.puts[k]).concatName) {
        assert NamedBy(c, s', x, s'.stored[(q, x)], k);
      } else {
        var i: nat :| NamedBy(c, s, x, s.stored[(q, x)], i);
        assert NamedBy(c, s', x, s'.stored[(q, x)], i);
      }
    }
    assert forall i :: 0 <= i < |s'.puts| ==> PutOk(c, s, s.puts[i]);
  }

  /** An ack or the client's success changes only the Put itself. */
  lemma PutProgressKeeps(c: Config, s: State, k: nat, op: PutOp)
    requires Inv(c, s) && k < |s.puts| && Progress(s.puts[k], op) && PutOk(c, s, op)
    ensures Inv(c, s.(puts := s.puts[k := op]))
  {
    hide GetsOk, TablesOk, StoredOk;
    var s' := s.(puts := s.puts[k := op]);
    assert Grows(s, s');
    TablesOkGrows(c, s, s');
    StoredOkGrows(c, s, s');
    GetsOkGrows(c, s, s');
    forall i | 0 <= i < |s'.puts|
      ensures PutOk(c, s', s'.puts[i])
    {
      assert i != k ==> PutOk(c, s, s.puts[i]);
    }
    forall i, j | 0 <= i < j < |s'.puts|
      ensures DifferentPuts(s'.puts[i], s'.puts[j])
    {
      assert DifferentPuts(s.puts[i], s.puts[j]);
    }
  }

  /** A change to one Get. */
  lemma GetChangeKeeps(c: Config, s: State, gets: seq<GetOp>)
    requires Inv(c, s) && forall k :: 0 <= k < |gets| ==> GetOk(c, s, gets[k])
    ensures Inv(c, s.(gets := gets))
  {
    var s' := s.(gets := gets);
    assert Grows(s, s');
    TablesOkGrows(c, s, s');
    StoredOkGrows(c, s, s');
    forall k | 0 <= k < |gets|
      ensures GetOk(c, s', gets[k])
    {
      GetOkGrows(c, s, s', gets[k]);
    }
    assert forall i :: 0 <= i < |s'.puts| ==> PutOk(c, s, s.puts[i]) && PutOk(c, s', s'.puts[i]);
  }

  /** A replica's answer is some Put's sequence and data, and for the latest version nothing it has is newer. */
  lemma AnswerIsPut(c: Config, s: State, p: Process, file: string, version: nat, answer: FileVersion)
    requires c.Valid() && Inv(c, s) && IsAnswer(Elements(StoredVersions(s, p, file)), version, Some(answer))
    requires version >= 1
    requires (p, answer.concatName) in s.stored
    ensures FromPut(s, file, Reply(answer.sequence, s.stored[(p, answer.concatName)]))
    ensures version == LATEST_VERSION ==>
              forall v :: v in StoredVersions(s, p, file) ==> !answer.sequence.Less(v.sequence)
  {
    var vs := Elements(StoredVersions(s, p, file));
    if version > |vs| {
      assert false;
    }
    assert answer in StoredVersions(s, p, file);
    var k: nat :| IsPut(c, s, file, answer, k);
    var i: nat :| NamedBy(c, s, answer.concatName, s.stored[(p, answer.concatName)], i);
    assert c.name(s.puts[i].file, s.puts[i].sequence) == c.name(file, s.puts[k].sequence);
    assert s.puts[i].sequence == answer.sequence && s.puts[i].file == file;
    if version == LATEST_VERSION {
      assert Newer(vs, answer) == {};
      forall v | v in StoredVersions(s, p, file)
        ensures !answer.sequence.Less(v.sequence)
      {
        assert v in vs && v !in Newer(vs, answer);
      }
    }
  }

  lemma AnswerKeeps(c: Config, s: State, k: nat, p: Process, answer: FileVersion)
    requires c.Valid() && Inv(c, s) && Enabled(c, s, AnswerRead(k, p, answer))
    ensures Inv(c, Apply(c, s, AnswerRead(k, p, answer)))
  {
    var g := s.gets[k];
    assert GetOk(c, s, g);
    AnswerIsPut(c, s, p, g.file, g.version, answer);
    var r := Reply(answer.sequence, s.stored[(p, answer.concatName)]);
    forall j | j in g.before && p in s.puts[j].acks && g.version == LATEST_VERSION
      ensures NotOlder(r, s.puts[j])
    {
      assert PutOk(c, s, s.puts[j]);
      assert VersionOf(c, s.puts[j]) in StoredVersions(s, p, g.file);
    }
    AnsweredOk(c, s, g, p, r);
    OneGetKeeps(c, s, k, g.(replies := g.replies[p := r]));
  }

  lemma AnsweredOk(c: Config, s: State, g: GetOp, p: Process, r: Reply)
    requires GetOk(c, s, g) && p in c.ReplicasOf(g.file) && FromPut(s, g.file, r)
    requires forall j :: j in g.before && p in s.puts[j].acks && g.version == LATEST_VERSION ==> NotOlder(r, s.puts[j])
    ensures GetOk(c, s, g.(replies := g.replies[p := r]))
  {
    hide FromPut, NotOlder, Config.ReplicasOf;
  }

  lemma OneGetKeeps(c: Config, s: State, k: nat, g: GetOp)
    requires Inv(c, s) && k < |s.gets| && GetOk(c, s, g)
    ensures Inv(c, s.(gets := s.gets[k := g]))
  {
    var gets := s.gets[k := g];
    forall i | 0 <= i < |gets|
      ensures GetOk(c, s, gets[i])
    {
      assert GetOk(c, s, s.gets[i]);
    }
    hide GetOk, Inv;
    GetChangeKeeps(c, s, gets);
  }

  lemma FinishGetKeeps(c: Config, s: State, k: nat, order: seq<Process>, r: Reply)
    requires c.Valid() && Inv(c, s) && Enabled(c, s, FinishGet(k, order, r))
    ensures Inv(c, Apply(c, s, FinishGet(k, order, r)))
  {
    var g := s.gets[k];
    assert GetOk(c, s, g) && PutsOk(c, s);
    assert NoDuplicates(order) && |order| == c.Level(GetTask) && IsLatest(Arrived(g.replies, order), r);
    hide Inv, GetOk, PutsOk, NoDuplicates, IsLatest, Arrived, Config.Level, Config.Valid;
    FinishedOk(c, s, g, order, r);
    OneGetKeeps(c, s, k, g.(result := Some(r)));
  }

  lemma FinishedOk(c: Config, s: State, g: GetOp, order: seq<Process>, r: Reply)
    requires c.Valid() && PutsOk(c, s) && GetOk(c, s, g) && NoDuplicates(order) && |order| == c.Level(GetTask)
    requires forall i :: 0 <= i < |order| ==> order[i] in g.replies
    requires IsLatest(Arrived(g.replies, order), r)
    ensures GetOk(c, s, g.(result := Some(r)))
  {
    hide Config.Valid, Config.ReplicasOf, Config.Level, NoDuplicates, GetOk, PutsOk;
    ReplyFromPut(c, s, g, order, r);
    hide IsLatest, Arrived, FromPut, NotOlder;
    if g.version == LATEST_VERSION {
      forall j | j in g.before
        ensures j < |s.puts| && NotOlder(r, s.puts[j])
      {
        BeforeExists(c, s, g, j);
        LatestCovers(c, s, g, order, r, j);
      }
    }
    ResultOk(c, s, g, r);
  }

  lemma ReplyFromPut(c: Config, s: State, g: GetOp, order: seq<Process>, r: Reply)
    requires GetOk(c, s, g) && (forall i :: 0 <= i < |order| ==> order[i] in g.replies)
    requires IsLatest(Arrived(g.replies, order), r)
    ensures FromPut(s, g.file, r)
  {
    hide FromPut, NotOlder;
    var rs := Arrived(g.replies, order);
    var i :| 0 <= i < |rs| && rs[i] == r;
    assert order[i] in g.replies;
  }

  lemma BeforeExists(c: Config, s: State, g: GetOp, j: nat)
    requires GetOk(c, s, g) && j in g.before
    ensures j < |s.puts|
  {
  }

  lemma ResultOk(c: Config, s: State, g: GetOp, r: Reply)
    requires GetOk(c, s, g) && FromPut(s, g.file, r)
    requires g.version == LATEST_VERSION ==> forall j :: j in g.before ==> j < |s.puts| && NotOlder(r, s.puts[j])
    ensures GetOk(c, s, g.(result := Some(r)))
  {
    hide FromPut, NotOlder, Config.ReplicasOf;
  }

  lemma AckKeeps(c: Config, s: State, k: nat, p: Process)
    requires Inv(c, s) && Enabled(c, s, AckWrite(k, p))
    ensures Inv(c, Apply(c, s, AckWrite(k, p)))
  {
    assert PutOk(c, s, s.puts[k]);
    PutProgressKeeps(c, s, k, s.puts[k].(acks := s.puts[k].acks + {p}));
  }

  lemma FinishPutKeeps(c: Config, s: State, k: nat)
    requires Inv(c, s) && Enabled(c, s, FinishPut(k))
    ensures Inv(c, Apply(c, s, FinishPut(k)))
  {
    assert PutOk(c, s, s.puts[k]);
    PutProgressKeeps(c, s, k, s.puts[k].(done := true));
  }

  lemma StartGetKeeps(c: Config, s: State, file: string, version: nat)
    requires Inv(c, s) && Enabled(c, s, StartGet(file, version))
    ensures Inv(c, Apply(c, s, StartGet(file, version)))
  {
    var before := set i | 0 <= i < |s.puts| && s.puts[i].done && s.puts[i].file == file;
    var g := GetOp(file, version, before, map[], None);
    assert GetOk(c, s, g);
    GetChangeKeeps(c, s, s.gets + [g]);
  }

  lemma StepKeeps(c: Config, s: State, step: Step)
    requires c.Valid() && Inv(c, s) && Enabled(c, s, step)
    ensures Inv(c, Apply(c, s, step))
  {
    hide Inv, Enabled, Apply;
    match step
    case StartPut(_, _, _, _) => StartPutKeeps(c, s, step);
    case DeliverWrite(k, p) => DeliverKeeps(c, s, k, p);
    case StoreData(k, p) => StoreKeeps(c, s, k, p);
    case AckWrite(k, p) => AckKeeps(c, s, k, p);
    case FinishPut(k) => FinishPutKeeps(c, s, k);
    case StartGet(file, version) => StartGetKeeps(c, s, file, version);
    case AnswerRead(k, p, answer) => AnswerKeeps(c, s, k, p, answer);
    case FinishGet(k, order, r) => FinishGetKeeps(c, s, k, order, r);
  }

  // ---- Runs ----

  ghost predicate IsRun(c: Config, trace: seq<State>, steps: seq<Step>) {
    && |trace| == |steps| + 1
    && trace[0] == State(map[], map[], [], [])
    && forall i :: 0 <= i < |steps| ==> Enabled(c, trace[i], steps[i]) && trace[i + 1] == Apply(c, trace[i], steps[i])
  }

  lemma {:induction false} RunInv(c: Config, trace: seq<State>, steps: seq<Step>, i: nat)
    requires c.Valid() && IsRun(c, trace, steps) && i < |trace|
    ensures Inv(c, trace[i])
  {
    if i > 0 {
      hide Inv, Enabled, Apply;
      RunInv(c, trace, steps, i - 1);
      StepKeeps(c, trace[i - 1], steps[i - 1]);
    }
  }

  /** What a later state keeps of a Put and a Get. */
  lemma {:induction false} OperationsStay(c: Config, trace: seq<State>, steps: seq<Step>, i: nat, t: nat)
    requires IsRun(c, trace, steps) && i <= t < |trace|
    ensures |trace[i].puts| <= |trace[t].puts| && |trace[i].gets| <= |trace[t].gets|
    ensures forall j :: 0 <= j < |trace[i].puts| ==>
              trace[t].puts[j].file == trace[i].puts[j].file && trace[t].puts[j].sequence == trace[i].puts[j].sequence
    ensures forall k :: 0 <= k < |trace[i].gets| ==>
              trace[t].gets[k].(replies := map[], result := None) == trace[i].gets[k].(replies := map[], result := None)
  {
    if i < t {
      OperationsStay(c, trace, steps, i, t - 1);
      assert trace[t - 1 + 1] == Apply(c, trace[t - 1], steps[t - 1]);
    }
  }

  /** Quorum freshness: a Get of the latest version that starts after a Put of the file succeeded returns,
      whenever it returns, a sequence not less than that Put's, with the data written under the returned
      sequence. */
  lemma GetIsFresh(c: Config, trace: seq<State>, steps: seq<Step>, i: nat, j: nat, t: nat, file: string)
    requires c.Valid() && IsRun(c, trace, steps) && i < |steps| && i < t < |trace|
    requires steps[i] == StartGet(file, LATEST_VERSION)
    requires j < |trace[i].puts| && trace[i].puts[j].done && trace[i].puts[j].file == file
    ensures var k := |trace[i].gets|;
            && k < |trace[t].gets|
            && (trace[t].gets[k].result.Some? ==>
                  && !trace[t].gets[k].result.value.sequence.Less(trace[i].puts[j].sequence)
                  && FromPut(trace[t], file, trace[t].gets[k].result.value))
  {
    var k := |trace[i].gets|;
    assert trace[i + 1] == Apply(c, trace[i], steps[i]);
    assert j in trace[i + 1].gets[k].before && trace[i + 1].gets[k].version == LATEST_VERSION;
    OperationsStay(c, trace, steps, i + 1, t);
    OperationsStay(c, trace, steps, i, t);
    RunInv(c, trace, steps, t);
    assert GetOk(c, trace[t], trace[t].gets[k]);
    assert trace[t].gets[k].result.Some? ==> NotOlder(trace[t].gets[k].result.value, trace[t].puts[j]);
  }

  // ---- A run that happens ----

  ghost predicate Reachable(c: Config, s: State) {
    exists trace: seq<State>, steps: seq<Step> :: IsRun(c, trace, steps) && trace[|steps|] == s
  }

  lemma Extend(c: Config, s: State, step: Step) returns (s': State)
    requires Reachable(c, s) && Enabled(c, s, step)
    ensures Reachable(c, s') && s' == Apply(c, s, step)
  {
    hide Enabled, Apply;
    s' := Apply(c, s, step);
    var trace: seq<State>, steps: seq<Step> :| IsRun(c, trace, steps) && trace[|steps|] == s;
    hide Reachable;
    var t, ss := trace + [s'], steps + [step];
    forall i | 0 <= i < |ss|
      ensures Enabled(c, t[i], ss[i]) && t[i + 1] == Apply(c, t[i], ss[i])
    {
      if i < |steps| {
        assert t[i] == trace[i] && t[i + 1] == trace[i + 1] && ss[i] == steps[i];
      }
    }
    RunReaches(c, t, ss);
  }

  lemma RunReaches(c: Config, trace: seq<State>, steps: seq<Step>)
    requires IsRun(c, trace, steps)
    ensures Reachable(c, trace[|steps|])
  {
  }

  /** One Put under way, stored and acknowledged by the listed replicas. */
  ghost predicate Written(c: Config, s: State, op: PutOp, done: bool, ps: seq<Process>) {
    && s.puts == [op.(delivered := Elements(ps), acks := Elements(ps), done := done)]
    && s.tables.Keys == Elements(ps)
    && forall p :: p in ps ==>
         && StoredVersions(s, p, op.file) == [VersionOf(c, op)]
         && (p, VersionOf(c, op).concatName) in s.stored && s.stored[(p, VersionOf(c, op).concatName)] == op.data
  }

  lemma WriteOne(c: Config, s: State, op: PutOp, ps: seq<Process>, p: Process) returns (s': State)
    requires Reachable(c, s) && Written(c, s, op, false, ps) && p in c.ReplicasOf(op.file) && p !in ps && s.gets == []
    ensures Reachable(c, s') && Written(c, s', op, false, ps + [p]) && s'.gets == []
  {
    var s1 := Delivers(c, s, op, ps, p);
    hide Reachable, Config.ReplicasOf, Written;
    s' := Stores(c, s1, op, ps, p);
    hide Enabled, Apply, StoredVersions;
    WrittenOneMore(c, s, s', op, ps, p);
  }

  lemma Delivers(c: Config, s: State, op: PutOp, ps: seq<Process>, p: Process) returns (s': State)
    requires Reachable(c, s) && Written(c, s, op, false, ps) && p in c.ReplicasOf(op.file) && p !in ps
    ensures Reachable(c, s')
    ensures s' == s.(puts := [op.(delivered := Elements(ps) + {p}, acks := Elements(ps), done := false)],
                     tables := s.tables[p := map[op.file := [VersionOf(c, op)]]])
  {
    hide Reachable, Config.ReplicasOf;
    var v := VersionOf(c, op);
    assert p !in s.tables && VersionOf(c, s.puts[0]) == v;
    FirstInserted(op.file, v);
    s' := Extend(c, s, DeliverWrite(0, p));
  }

  lemma FirstInserted(file: string, v: FileVersion)
    ensures Inserted(map[], WriteRecord(file, v)) == map[file := [v]]
  {
    var none: Table := map[];
    assert Versions(none, file) == [] && [] + [v] == [v];
    assert Inserted(none, WriteRecord(file, v)) == none[file := [v]];
  }

  lemma Stores(c: Config, s: State, op: PutOp, ps: seq<Process>, p: Process) returns (s': State)
    requires Reachable(c, s) && s.puts == [op.(delivered := Elements(ps) + {p}, acks := Elements(ps), done := false)]
    ensures Reachable(c, s')
    ensures s' == s.(puts := [op.(delivered := Elements(ps) + {p}, acks := Elements(ps) + {p}, done := false)],
                     stored := s.stored[(p, VersionOf(c, op).concatName) := op.data])
  {
    hide Reachable;
    var s1 := Extend(c, s, StoreData(0, p));
    s' := Extend(c, s1, AckWrite(0, p));
  }

  lemma WrittenOneMore(c: Config, s: State, s': State, op: PutOp, ps: seq<Process>, p: Process)
    requires Written(c, s, op, false, ps) && p !in ps
    requires s'.puts == [op.(delivered := Elements(ps) + {p}, acks := Elements(ps) + {p}, done := false)]
    requires s'.tables == s.tables[p := map[op.file := [VersionOf(c, op)]]]
    requires s'.stored == s.stored[(p, VersionOf(c, op).concatName) := op.data]
    ensures Written(c, s', op, false, ps + [p])
  {
    assert Elements(ps + [p]) == Elements(ps) + {p};
  }

  lemma {:induction false} WriteAll(c: Config, op: PutOp, ps: seq<Process>) returns (s: State)
    requires NoDuplicates(ps) && Elements(ps) <= c.ReplicasOf(op.file)
    ensures Reachable(c, s) && Written(c, s, op, false, ps) && s.gets == []
  {
    if ps == [] {
      s := StartWrite(c, op);
    } else {
      var n := |ps| - 1;
      assert ps == ps[..n] + [ps[n]];
      assert forall x :: x in ps[..n] ==> x in Elements(ps);
      assert ps[n] in Elements(ps);
      hide Config.ReplicasOf, Written, Reachable;
      s := WriteAll(c, op, ps[..n]);
      s := WriteOne(c, s, op, ps[..n], ps[n]);
    }
  }

  lemma StartWrite(c: Config, op: PutOp) returns (s: State)
    ensures Reachable(c, s) && Written(c, s, op, false, []) && s.gets == []
  {
    var init := State(map[], map[], [], []);
    var steps: seq<Step> := [];
    assert IsRun(c, [init], steps);
    RunReaches(c, [init], steps);
    hide Reachable;
    s := Extend(c, init, StartPut(op.file, op.data, op.sequence, op.id));
    assert Elements<Process>([]) == {};
  }

  /** And one Get, answered by some of those replicas. */
  ghost predicate Answered(s: State, op: PutOp, answered: seq<Process>) {
    && |s.gets| == 1 && s.gets[0].file == op.file && s.gets[0].version == 1 && s.gets[0].result == None
    && s.gets[0].replies.Keys == Elements(answered)
    && forall p :: p in answered ==> s.gets[0].replies[p] == Reply(op.sequence, op.data)
  }

  lemma AnswerOne(c: Config, s: State, op: PutOp, ps: seq<Process>, answered: seq<Process>,
                  p: Process) returns (s': State)
    requires Reachable(c, s) && Written(c, s, op, true, ps) && Answered(s, op, answered)
    requires p in ps && p in c.ReplicasOf(op.file) && p !in answered
    ensures Reachable(c, s') && Written(c, s', op, true, ps) && Answered(s', op, answered + [p])
  {
    hide Reachable, Config.ReplicasOf;
    var v := VersionOf(c, op);
    assert Elements(StoredVersions(s, p, op.file)) == {v} && Newer({v}, v) == {};
    s' := Extend(c, s, AnswerRead(0, p, v));
    assert Elements(answered + [p]) == Elements(answered) + {p};
  }

  lemma {:induction false} AnswerAll(c: Config, s: State, op: PutOp, ps: seq<Process>, k: nat) returns (s': State)
    requires Reachable(c, s) && Written(c, s, op, true, ps) && Answered(s, op, [])
    requires k <= |ps| && NoDuplicates(ps) && Elements(ps) <= c.ReplicasOf(op.file)
    ensures Reachable(c, s') && Written(c, s', op, true, ps) && Answered(s', op, ps[..k])
  {
    hide Config.ReplicasOf, Written, Reachable, Answered;
    if k == 0 {
      assert ps[..0] == [];
      s' := s;
    } else {
      assert ps[..k] == ps[..k - 1] + [ps[k - 1]] && ps[k - 1] in Elements(ps);
      assert ps[k - 1] !in ps[..k - 1];
      hide NoDuplicates, Elements;
      s' := AnswerAll(c, s, op, ps, k - 1);
      s' := AnswerOne(c, s', op, ps, ps[..k - 1], ps[k - 1]);
    }
  }

  lemma FinishWrite(c: Config, s: State, op: PutOp, ps: seq<Process>) returns (s': State)
    requires Reachable(c, s) && Written(c, s, op, false, ps) && s.gets == [] && |Elements(ps)| >= Min(3, |c.ring|)
    ensures Reachable(c, s') && Written(c, s', op, true, ps) && Answered(s', op, [])
  {
    hide Reachable;
    var s1 := Extend(c, s, FinishPut(0));
    s' := Extend(c, s1, StartGet(op.file, 1));
    assert Elements<Process>([]) == {};
  }

  lemma FinishRead(c: Config, s: State, op: PutOp, ps: seq<Process>) returns (s': State)
    requires Reachable(c, s) && Written(c, s, op, true, ps) && Answered(s, op, ps)
    requires c.ring != [] && |Elements(ps)| >= Min(2, |c.ring|)
    ensures Reachable(c, s') && |s'.puts| == 1 && s'.puts[0].done && |s'.gets| == 1
    ensures s'.gets[0].file == op.file && s'.gets[0].result == Some(Reply(op.sequence, op.data))
  {
    assert |s.gets[0].replies| == |s.gets[0].replies.Keys|;
    GetFinishesExactly(c, s, 0);
    var order, r :| Enabled(c, s, FinishGet(0, order, r));
    assert r == Reply(op.sequence, op.data) by {
      assert r in Arrived(s.gets[0].replies, order);
    }
    hide Reachable, IsLatest, Arrived;
    s' := Extend(c, s, FinishGet(0, order, r));
  }

  /** On every ring there is a run in which a Put succeeds and a Get then returns what it wrote. */
  lemma PutThenGet(c: Config, file: string, data: Data, sequence: Sequence, id: WriteId) returns (s: State)
    requires c.Valid()
    ensures Reachable(c, s)
    ensures |s.puts| == 1 && s.puts[0].done && |s.gets| == 1
    ensures s.gets[0].file == file && s.gets[0].result == Some(Reply(sequence, data))
  {
    var op := PutOp(file, data, sequence, id, {}, {}, false);
    var ps := ReplicaOrder(c, file);
    hide *;
    s := WriteAll(c, op, ps);
    s := FinishWrite(c, s, op, ps);
    s := AnswerAll(c, s, op, ps, |ps|);
    assert ps[..|ps|] == ps;
    s := FinishRead(c, s, op, ps);
  }

  lemma ReplicaOrder(c: Config, file: string) returns (ps: seq<Process>)
    requires c.Valid()
    ensures NoDuplicates(ps) && Elements(ps) == c.ReplicasOf(file)
    ensures c.ring != [] && |Elements(ps)| >= Min(3, |c.ring|) >= Min(2, |c.ring|)
  {
    ps := ReplicaList(c.ring, HomeSlot(c.hash, file), REPLICA_COUNT);
    ReplicasMeaning(c.hash, c.ring, HomeSlot(c.hash, file), REPLICA_COUNT);
    DistinctLength(ps);
  }
}
