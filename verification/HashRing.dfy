/** The consistent-hash ring of sdfs/hash_ring.go: a list of nodes sorted by hash key. */
module HashRings {
  import opened Api
  import opened Placement
  import Sorting

  datatype HashNode = HashNode(hashKey: nat, process: Process)

  /** Bitwise or of two unsigned integers. */
  function BitOr(a: nat, b: nat): nat {
    if a == 0 then b
    else (if a % 2 == 1 || b % 2 == 1 then 1 else 0) + 2 * BitOr(a / 2, b / 2)
  }

  lemma BitOrZero(a: nat)
    ensures BitOr(a, 0) == a
  {
  }

  /** The i-th binary digit of a number, from the lowest on. */
  predicate Bit(n: nat, i: nat) {
    if i == 0 then n % 2 == 1 else Bit(n / 2, i - 1)
  }

  /** Each digit is set exactly when it is set in one of the two. */
  lemma {:induction false} BitOrBits(a: nat, b: nat, i: nat)
    ensures Bit(BitOr(a, b), i) <==> Bit(a, i) || Bit(b, i)
  {
    if i > 0 {
      BitOrBits(a / 2, b / 2, i - 1);
      BitOrHalves(a, b);
    } else {
      BitOrHalves(a, b);
    }
  }

  lemma BitOrHalves(a: nat, b: nat)
    ensures BitOr(a, b) / 2 == BitOr(a / 2, b / 2)
    ensures BitOr(a, b) % 2 == 1 <==> a % 2 == 1 || b % 2 == 1
  {
    if a == 0 {
      BitOrNone(b / 2);
    }
  }

  lemma BitOrNone(b: nat)
    ensures BitOr(0, b) == b
  {
  }

  /** The circle has 1024 slots, and a key may fall on any of them. */
  lemma EverySlot(k: nat)
    ensures k < 1024 <==> exists hash: string -> nat, key :: HomeSlot(hash, key) == k
  {
    if k < 1024 {
      var hash: string -> nat := (key: string) => k;
      assert HomeSlot(hash, "") == k;
    }
  }

  function HomeSlot(hash: string -> nat, key: string): Slot {
    hash(key) % HASH_SIZE
  }

  function Pos(hash: string -> nat): Process -> Slot {
    (p: Process) => HomeSlot(hash, p.Address())
  }

  // ---- What a ring means ----

  ghost function Members(r: seq<HashNode>): set<Process> {
    set i | 0 <= i < |r| :: r[i].process
  }

  /** Strictly sorted, every node at its process's home slot. */
  ghost predicate IsRing(hash: string -> nat, r: seq<HashNode>) {
    && (forall i, j :: 0 <= i < j < |r| ==> r[i].hashKey < r[j].hashKey)
    && (forall i :: 0 <= i < |r| ==> r[i].hashKey == Pos(hash)(r[i].process))
  }

  /** A ring is determined by its members: it does not depend on the order they were listed in. */
  lemma {:induction false} RingUnique(hash: string -> nat, r: seq<HashNode>, t: seq<HashNode>)
    requires IsRing(hash, r) && IsRing(hash, t) && Members(r) == Members(t)
    ensures r == t
  {
    assert r != [] ==> r[0].process in Members(r);
    assert t != [] ==> t[0].process in Members(t);
    assert r == [] <==> t == [];
    hide IsRing, Members;
    if r != [] {
      SameLast(hash, r, t);
      MembersWithoutLast(hash, r);
      MembersWithoutLast(hash, t);
      RingUnique(hash, r[..|r| - 1], t[..|t| - 1]);
      assert r == r[..|r| - 1] + [r[|r| - 1]] && t == t[..|t| - 1] + [t[|t| - 1]];
    }
  }

  lemma SameLast(hash: string -> nat, r: seq<HashNode>, t: seq<HashNode>)
    requires IsRing(hash, r) && IsRing(hash, t) && Members(r) == Members(t) && r != [] && t != []
    ensures r[|r| - 1] == t[|t| - 1]
  {
    var a, b := r[|r| - 1].process, t[|t| - 1].process;
    assert a in Members(r) && b in Members(t);
    var i :| 0 <= i < |t| && t[i].process == a;
    var j :| 0 <= j < |r| && r[j].process == b;
    assert t[i].hashKey <= t[|t| - 1].hashKey && r[j].hashKey <= r[|r| - 1].hashKey;
    assert t[i].hashKey == r[|r| - 1].hashKey && r[j].hashKey == t[|t| - 1].hashKey;
  }

  lemma MembersWithoutLast(hash: string -> nat, r: seq<HashNode>)
    requires IsRing(hash, r) && r != []
    ensures IsRing(hash, r[..|r| - 1]) && Members(r[..|r| - 1]) == Members(r) - {r[|r| - 1].process}
  {
    var r' := r[..|r| - 1];
    forall p | p in Members(r) && p != r[|r| - 1].process
      ensures p in Members(r')
    {
      var i :| 0 <= i < |r| && r[i].process == p;
      assert r'[i].process == p;
    }
    forall i | 0 <= i < |r'|
      ensures r'[i].process in Members(r) && r'[i].process != r[|r| - 1].process
    {
      assert r[i].hashKey < r[|r| - 1].hashKey;
    }
  }

  lemma RingCollisionFree(hash: string -> nat, r: seq<HashNode>)
    requires IsRing(hash, r)
    ensures CollisionFree(Pos(hash), Members(r))
  {
  }

  // ---- Walking the ring ----

  /** The first count processes at or after slot k. */
  function ReplicaList(r: seq<HashNode>, k: nat, count: nat): seq<Process> {
    if r == [] then [] else Walk(r, Start(r, k), Min(|r|, count))
  }

  /** The processes in ring order. */
  function Listed(r: seq<HashNode>): (ps: seq<Process>)
    ensures |ps| == |r| && forall i :: 0 <= i < |r| ==> ps[i] == r[i].process
  {
    seq(|r|, i requires 0 <= i < |r| => r[i].process)
  }

  /** count processes from index start on, around the circle. */
  function Walk(r: seq<HashNode>, start: nat, count: nat): (w: seq<Process>)
    requires r != []
    ensures |w| == count && forall i :: 0 <= i < count ==> w[i] == r[Wrap(start + i, |r|)].process
  {
    Around(Listed(r), start, count)
  }

  /** Index of the first node at or after slot k, or 0 when there is none. */
  function Start(r: seq<HashNode>, k: nat): (i: nat)
    ensures r == [] ==> i == 0
    ensures r != [] ==> i < |r|
    ensures (forall j :: 0 <= j < i ==> r[j].hashKey < k)
    ensures i == 0 || r[i].hashKey >= k
    ensures (exists j :: 0 <= j < |r| && r[j].hashKey >= k) ==> r[i].hashKey >= k
  {
    StartFrom(r, k, 0)
  }

  function StartFrom(r: seq<HashNode>, k: nat, i: nat): (j: nat)
    requires i <= |r| && forall j :: 0 <= j < i ==> r[j].hashKey < k
    ensures if exists m :: 0 <= m < |r| && r[m].hashKey >= k
            then j < |r| && r[j].hashKey >= k && forall m :: 0 <= m < j ==> r[m].hashKey < k
            else j == 0
    decreases |r| - i
  {
    if i == |r| then 0 else if r[i].hashKey >= k then i else StartFrom(r, k, i + 1)
  }

  /** Walking from a key's start position visits the members in strictly increasing distance. */
  lemma WalkIncreasing(hash: string -> nat, r: seq<HashNode>, k: Slot, i: nat, j: nat)
    requires IsRing(hash, r) && i < j < |r|
    ensures var w := Walk(r, Start(r, k), |r|);
            Dist(k, Pos(hash)(w[i])) < Dist(k, Pos(hash)(w[j]))
  {
    hide *;
    var n, s := |r|, Start(r, k);
    WrapOrder(s, i, j, n);
    Ahead(hash, r, k, Wrap(s + i, n), Wrap(s + j, n));
  }

  /** Later from the start position on means farther from the key. */
  lemma Ahead(hash: string -> nat, r: seq<HashNode>, k: Slot, a: nat, b: nat)
    requires IsRing(hash, r) && a < |r| && b < |r|
    requires if a >= Start(r, k) then a < b || b < Start(r, k) else a < b < Start(r, k)
    ensures Dist(k, Pos(hash)(r[a].process)) < Dist(k, Pos(hash)(r[b].process))
  {
    StartSplits(hash, r, k, a);
    StartSplits(hash, r, k, b);
    assert a < b ==> r[a].hashKey < r[b].hashKey;
    assert b < a ==> r[b].hashKey < r[a].hashKey;
    hide IsRing;
  }

  lemma WrapOrder(s: nat, i: nat, j: nat, n: nat)
    requires s < n && i < j < n
    ensures var a, b := Wrap(s + i, n), Wrap(s + j, n);
            if a >= s then a < b || b < s else a < b < s
  {
  }

  /** The nodes from the start position on lie at or after the key, unless the walk starts at the head. */
  lemma StartSplits(hash: string -> nat, r: seq<HashNode>, k: Slot, a: nat)
    requires IsRing(hash, r) && a < |r|
    ensures r[a].hashKey == Pos(hash)(r[a].process)
    ensures a < Start(r, k) ==> r[a].hashKey < k
    ensures a >= Start(r, k) ==>
      if exists j :: 0 <= j < |r| && r[j].hashKey >= k then r[a].hashKey >= k else r[a].hashKey < k
  {
    var s := Start(r, k);
    assert s < a ==> r[s].hashKey < r[a].hashKey;
  }

  lemma WalkVisitsAll(r: seq<HashNode>, s: nat)
    requires r != [] && s < |r|
    ensures Elements(Walk(r, s, |r|)) == Members(r)
  {
    var n := |r|;
    var w := Walk(r, s, n);
    forall p
      ensures p in Elements(w) <==> p in Members(r)
    {
      if p in w {
        var i :| 0 <= i < n && w[i] == p;
      }
      if p in Members(r) {
        var a :| 0 <= a < n && r[a].process == p;
        var i := if a >= s then a - s else a + n - s;
        assert Wrap(s + i, n) == a && w[i] == p;
      }
    }
  }

  /** The first c members of the walk are the c closest ones. */
  lemma WalkMeaning(hash: string -> nat, r: seq<HashNode>, k: Slot, c: nat)
    requires IsRing(hash, r) && r != [] && c <= |r|
    ensures var w := Walk(r, Start(r, k), c);
            NoDuplicates(w) && Elements(w) == Replicas(Pos(hash), Members(r), k, c)
  {
    var pos, full := Pos(hash), Walk(r, Start(r, k), |r|);
    assert Walk(r, Start(r, k), c) == full[..c];
    forall i, j | 0 <= i < j < |r|
      ensures Dist(k, pos(full[i])) < Dist(k, pos(full[j]))
    {
      WalkIncreasing(hash, r, k, i, j);
    }
    WalkVisitsAll(r, Start(r, k));
    hide IsRing, Members, Walk, Start;
    PrefixIsClosest(pos, full, k, c);
  }

  lemma PrefixIsClosest(pos: Process -> Slot, full: seq<Process>, k: Slot, c: nat)
    requires c <= |full|
    requires forall a, b :: 0 <= a < b < |full| ==> Dist(k, pos(full[a])) < Dist(k, pos(full[b]))
    ensures NoDuplicates(full[..c]) && Elements(full[..c]) == Replicas(pos, Elements(full), k, c)
  {
    forall i | 0 <= i < |full|
      ensures |Closer(pos, Elements(full), k, full[i])| == i
    {
      CloserIsPrefix(pos, full, k, i);
      DistinctLength(full[..i]);
    }
    hide Closer, Dist;
    forall p
      ensures p in full[..c] <==> p in Replicas(pos, Elements(full), k, c)
    {
      if p in full {
        var i :| 0 <= i < |full| && full[i] == p;
        assert i < c ==> full[..c][i] == p;
      }
    }
  }

  lemma CloserIsPrefix(pos: Process -> Slot, full: seq<Process>, k: Slot, i: nat)
    requires i < |full|
    requires forall a, b :: 0 <= a < b < |full| ==> Dist(k, pos(full[a])) < Dist(k, pos(full[b]))
    ensures Closer(pos, Elements(full), k, full[i]) == Elements(full[..i])
  {
    forall p | p in Closer(pos, Elements(full), k, full[i])
      ensures p in full[..i]
    {
      var a :| 0 <= a < |full| && full[a] == p;
      assert a < i;
      assert full[..i][a] == p;
    }
  }

  lemma ReplicasSaturate(pos: Process -> Slot, m: set<Process>, k: Slot, r: nat)
    requires r >= |m|
    ensures Replicas(pos, m, k, r) == m
  {
    forall p | p in m
      ensures p in Replicas(pos, m, k, r)
    {
      SubsetCardinality(Closer(pos, m, k, p), m - {p});
    }
  }

  lemma MembersCount(hash: string -> nat, r: seq<HashNode>)
    requires IsRing(hash, r)
    ensures |Members(r)| == |r|
  {
    var ps := seq(|r|, (i: nat) requires i < |r| => r[i].process);
    forall i, j | 0 <= i < j < |ps|
      ensures ps[i] != ps[j]
    {
      assert r[i].hashKey < r[j].hashKey;
    }
    DistinctLength(ps);
    assert Elements(ps) == Members(r) by {
      forall p
        ensures p in Elements(ps) <==> p in Members(r)
      {
        if p in Members(r) {
          var i :| 0 <= i < |r| && r[i].process == p;
          assert ps[i] == p;
        }
      }
    }
  }

  // ---- Building the ring ----

  /** First offset at which probing finds a free key, or HASH_SIZE when all are taken. */
  function ProbeFrom(h: nat, keys: set<nat>, i: nat): (j: nat)
    requires i <= HASH_SIZE
    ensures i <= j <= HASH_SIZE
    ensures j < HASH_SIZE ==> BitOr(h, j) % HASH_SIZE !in keys
    ensures forall m :: i <= m < j ==> BitOr(h, m) % HASH_SIZE in keys
    decreases HASH_SIZE - i
  {
    if i < HASH_SIZE && BitOr(h, i) % HASH_SIZE in keys then ProbeFrom(h, keys, i + 1) else i
  }

  function ProbedKey(h: nat, keys: set<nat>): nat {
    BitOr(h, ProbeFrom(h, keys, 0)) % HASH_SIZE
  }

  function Keys(r: seq<HashNode>): set<nat> {
    set i | 0 <= i < |r| :: r[i].hashKey
  }

  lemma KeysNone()
    ensures Keys([]) == {}
  {
  }

  lemma KeysMore(r: seq<HashNode>, node: HashNode)
    ensures Keys(r + [node]) == Keys(r) + {node.hashKey}
  {
    var t := r + [node];
    assert t[|r|] == node && forall i :: 0 <= i < |r| ==> t[i] == r[i];
    forall k | k in Keys(r)
      ensures k in Keys(t)
    {
      var i :| 0 <= i < |r| && r[i].hashKey == k;
      assert t[i].hashKey == k;
    }
  }

  /** The node list before sorting: each process takes the first key free after its predecessors. */
  function Assigned(hash: string -> nat, ps: seq<Process>): (r: seq<HashNode>)
    ensures |r| == |ps|
    ensures forall i :: 0 <= i < |ps| ==> r[i].process == ps[i]
  {
    if ps == [] then []
    else
      var r := Assigned(hash, ps[..|ps| - 1]);
      var p := ps[|ps| - 1];
      r + [HashNode(ProbedKey(hash(p.Address()), Keys(r)), p)]
  }

  /** A process takes its home slot if that is free, and some free slot as long as probing meets one. */
  lemma AssignedFree(hash: string -> nat, ps: seq<Process>, p: Process)
    ensures var r, taken := Assigned(hash, ps + [p]), Keys(Assigned(hash, ps));
            var h, k := hash(p.Address()), r[|ps|].hashKey;
            && r[..|ps|] == Assigned(hash, ps)
            && (Pos(hash)(p) !in taken ==> k == Pos(hash)(p))
            && ((exists i :: 0 <= i < 1024 && BitOr(h, i) % 1024 !in taken) ==>
                  exists i :: 0 <= i < 1024 && k == BitOr(h, i) % 1024 && k !in taken
                    && forall m :: 0 <= m < i ==> BitOr(h, m) % 1024 in taken)
  {
    assert (ps + [p])[..|ps|] == ps;
    BitOrZero(hash(p.Address()));
  }

  /** The listed processes have pairwise distinct home slots. */
  ghost predicate DistinctHomes(hash: string -> nat, ps: seq<Process>) {
    forall i, j :: 0 <= i < j < |ps| ==> Pos(hash)(ps[i]) != Pos(hash)(ps[j])
  }

  /** Without collisions nobody is probed away from its home slot. */
  lemma {:induction false} AssignedHome(hash: string -> nat, ps: seq<Process>)
    requires DistinctHomes(hash, ps)
    ensures forall i :: 0 <= i < |ps| ==> Assigned(hash, ps)[i].hashKey == Pos(hash)(ps[i])
  {
    hide BitOr;
    if ps != [] {
      var n := |ps| - 1;
      AssignedHome(hash, ps[..n]);
      var r := Assigned(hash, ps[..n]);
      var h := hash(ps[n].Address());
      BitOrZero(h);
      assert BitOr(h, 0) % HASH_SIZE == Pos(hash)(ps[n]);
      forall k | k in Keys(r)
        ensures k != Pos(hash)(ps[n])
      {
        var i :| 0 <= i < |r| && r[i].hashKey == k;
        assert ps[..n][i] == ps[i];
      }
    }
  }

  predicate KeyLess(a: HashNode, b: HashNode) {
    a.hashKey < b.hashKey
  }

  /** Sorting the assigned nodes of processes with distinct home slots gives their ring. */
  lemma SortedIsRing(hash: string -> nat, ps: seq<Process>, r: seq<HashNode>)
    requires DistinctHomes(hash, ps)
    requires Sorting.Sorted(KeyLess, r) && multiset(r) == multiset(Assigned(hash, ps))
    ensures IsRing(hash, r) && Members(r) == Elements(ps)
  {
    var a := Assigned(hash, ps);
    AssignedHome(hash, ps);
    Sorting.SamePermutation(r, a);
    forall i | 0 <= i < |r|
      ensures r[i].hashKey == Pos(hash)(r[i].process) && r[i].process in ps
    {
      assert r[i] in a;
    }
    assert NoDuplicates(a);
    forall i, j | 0 <= i < j < |r|
      ensures r[i].hashKey < r[j].hashKey
    {
      assert !KeyLess(r[j], r[i]);
      Sorting.PermutationKeepsDistinct(r, a);
      assert r[i] in a && r[j] in a;
    }
    forall p | p in ps
      ensures p in Members(r)
    {
      var i :| 0 <= i < |ps| && ps[i] == p;
      assert a[i] in r;
    }
  }

  /** Index of the first node with the given key, or -1. */
  function IndexOf(r: seq<HashNode>, k: nat): (index: int)
    ensures -1 <= index < |r|
    ensures index >= 0 ==> r[index].hashKey == k
    ensures forall i :: 0 <= i < (if index == -1 then |r| else index) ==> r[i].hashKey != k
  {
    var keys := seq(|r|, i requires 0 <= i < |r| => r[i].hashKey);
    assert forall i :: 0 <= i < |r| ==> keys[i] == r[i].hashKey;
    Index(keys, k)
  }

  lemma IndexOfMember(hash: string -> nat, r: seq<HashNode>, p: Process)
    requires IsRing(hash, r) && p in Members(r)
    ensures var index := IndexOf(r, Pos(hash)(p)); index >= 0 && r[index].process == p
  {
    var i :| 0 <= i < |r| && r[i].process == p;
    assert r[i].hashKey == Pos(hash)(p);
  }

  /** A node sits at the process's home slot. */
  predicate Present(hash: string -> nat, r: seq<HashNode>, p: Process) {
    IndexOf(r, Pos(hash)(p)) >= 0
  }

  /** The walk after a process's home slot, up to the process itself. */
  function NextOf(hash: string -> nat, r: seq<HashNode>, p: Process, count: nat): seq<Process> {
    var index := IndexOf(r, Pos(hash)(p));
    if index == -1 then [] else TakeUntil(Walk(r, index + 1, count), p)
  }

  class HashRing {
    const hash: string -> nat
    var nodes: seq<HashNode>

    constructor (hash: string -> nat)
      ensures this.hash == hash && nodes == []
    {
      this.hash := hash;
      nodes := [];
    }

    /** Rebuild the ring: probe for a free key per process, then sort by key. */
    method Refresh(processes: seq<Process>)
      modifies this
      ensures Sorting.Sorted(KeyLess, nodes) && multiset(nodes) == multiset(Assigned(hash, processes))
      ensures DistinctHomes(hash, processes) ==> IsRing(hash, nodes) && Members(nodes) == Elements(processes)
    {
      hide BitOr, Keys, IsRing, Members, DistinctHomes, Sorting.Sorted;
      nodes := [];
      var keys: set<nat> := {};
      KeysNone();
      for n := 0 to |processes|
        invariant nodes == Assigned(hash, processes[..n])
        invariant keys == Keys(nodes)
      {
        var p := processes[n];
        var h := hash(p.Address());
        var i := 0;
        while i < HASH_SIZE && BitOr(h, i) % HASH_SIZE in keys
          invariant 0 <= i <= HASH_SIZE
          invariant ProbeFrom(h, keys, 0) == ProbeFrom(h, keys, i)
        {
          i := i + 1;
        }
        assert processes[..n + 1][..n] == processes[..n];
        var hashKey := BitOr(h, i) % HASH_SIZE;
        keys := keys + {hashKey};
        KeysMore(nodes, HashNode(hashKey, p));
        nodes := nodes + [HashNode(hashKey, p)];
      }
      assert processes[..|processes|] == processes;
      nodes := Sorting.Sort(KeyLess, nodes);
      if DistinctHomes(hash, processes) {
        SortedIsRing(hash, processes, nodes);
      }
    }

    /** The numReplicas processes that store a key, primary first. */
    method FindReplicas(key: string, numReplicas: nat) returns (replicas: seq<Process>)
      ensures replicas == ReplicaList(nodes, HomeSlot(hash, key), numReplicas)
    {
      var hashKey := HomeSlot(hash, key);
      var start := 0;
      for i := 0 to |nodes|
        invariant start == 0
        invariant forall j :: 0 <= j < i ==> nodes[j].hashKey < hashKey
        invariant StartFrom(nodes, hashKey, 0) == StartFrom(nodes, hashKey, i)
      {
        if nodes[i].hashKey >= hashKey {
          start := i;
          break;
        }
      }
      replicas := [];
      var i := 0;
      while i < Min(|nodes|, numReplicas)
        invariant 0 <= i <= Min(|nodes|, numReplicas)
        invariant nodes != [] ==> replicas == Walk(nodes, start, i)
        invariant nodes == [] ==> replicas == []
      {
        replicas := replicas + [nodes[Wrap(start + i, |nodes|)].process];
        i := i + 1;
      }
    }

    /** Index of the node at a process's home slot, or -1. */
    method FindProcessIndex(process: Process) returns (index: int)
      ensures index == IndexOf(nodes, Pos(hash)(process))
    {
      var hashKey := HomeSlot(hash, process.Address());
      for i := 0 to |nodes|
        invariant forall j :: 0 <= j < i ==> nodes[j].hashKey != hashKey
      {
        if nodes[i].hashKey == hashKey {
          return i;
        }
      }
      return -1;
    }

    /** Up to numSuccessors processes after a process, stopping when the walk comes back to it. */
    method FindSuccessors(process: Process, numSuccessors: nat) returns (successors: seq<Process>)
      ensures successors == NextOf(hash, nodes, process, numSuccessors)
    {
      successors := [];
      var index := FindProcessIndex(process);
      if index == -1 {
        return;
      }
      successors := Collect(index, process, numSuccessors);
    }

    method Collect(index: nat, process: Process, numSuccessors: nat) returns (successors: seq<Process>)
      requires index < |nodes|
      ensures successors == TakeUntil(Walk(nodes, index + 1, numSuccessors), process)
    {
      hide Walk, Wrap, TakeUntil;
      ghost var walk := Walk(nodes, index + 1, numSuccessors);
      successors := [];
      for i := 0 to numSuccessors
        invariant successors == walk[..i] && process !in successors
      {
        var successor := nodes[Wrap(index + 1 + i, |nodes|)].process;
        assert successor == walk[i] && walk[..i + 1] == walk[..i] + [successor];
        if successor == process {
          TakeUntilPrefix(walk, process, i);
          return;
        }
        successors := successors + [successor];
      }
      assert walk[..numSuccessors] == walk;
      TakeUntilPrefix(walk, process, numSuccessors);
    }

    /** The process just before a process, if there is another one. */
    method FindPredecessor(process: Process) returns (predecessor: Option<Process>)
      ensures predecessor.Some? <==> |nodes| > 1 && Present(hash, nodes, process)
      ensures IsRing(hash, nodes) && process in Members(nodes) && |nodes| > 1 ==>
        predecessor.Some? && IsPredecessor(Pos(hash), Members(nodes), process, predecessor.value)
    {
      hide IsRing, Members, IsPredecessor, IndexOf;
      var index := FindProcessIndex(process);
      if index == -1 || |nodes| == 1 {
        if IsRing(hash, nodes) && process in Members(nodes) {
          IndexOfMember(hash, nodes, process);
        }
        return None;
      }
      var n := |nodes|;
      predecessor := Some(nodes[Wrap(index - 1 + n, n)].process);
      if IsRing(hash, nodes) && process in Members(nodes) {
        IndexOfMember(hash, nodes, process);
        PredecessorMeaning(hash, nodes, process, index);
      }
    }

    /** The process a key is routed to. */
    method GetRouteProcess(key: string) returns (process: Option<Process>)
      ensures nodes == [] ==> process == None
      ensures nodes != [] ==> process == Some(nodes[Start(nodes, HomeSlot(hash, key))].process)
    {
      if |nodes| == 0 {
        return None;
      }
      var hashKey := HomeSlot(hash, key);
      for i := 0 to |nodes|
        invariant forall j :: 0 <= j < i ==> nodes[j].hashKey < hashKey
      {
        if nodes[i].hashKey >= hashKey {
          return Some(nodes[i].process);
        }
      }
      return Some(nodes[0].process);
    }
  }

  lemma PredecessorMeaning(hash: string -> nat, r: seq<HashNode>, p: Process, index: nat)
    requires IsRing(hash, r) && |r| > 1 && index < |r| && r[index].hashKey == Pos(hash)(p)
    requires p in Members(r)
    ensures IsPredecessor(Pos(hash), Members(r), p, r[if index == 0 then |r| - 1 else index - 1].process)
  {
    var pos := Pos(hash);
    var a := if index == 0 then |r| - 1 else index - 1;
    assert r[index].process == p by {
      var i :| 0 <= i < |r| && r[i].process == p;
      assert r[i].hashKey == pos(p);
    }
    forall x | x in Members(r) && x != p
      ensures Dist(pos(r[a].process), pos(p)) <= Dist(pos(x), pos(p))
    {
      var i :| 0 <= i < |r| && r[i].process == x;
      assert r[i].hashKey == pos(x);
    }
  }

  // ---- Meaning of the finders on a collision-free ring ----

  lemma RouteMeaning(hash: string -> nat, r: seq<HashNode>, k: Slot)
    requires IsRing(hash, r) && r != []
    ensures IsRoute(Pos(hash), Members(r), k, r[Start(r, k)].process)
  {
    var s, pos := Start(r, k), Pos(hash);
    forall q | q in Members(r)
      ensures Dist(k, pos(r[s].process)) <= Dist(k, pos(q))
    {
      var i :| 0 <= i < |r| && r[i].process == q;
      assert r[i].hashKey == pos(q) && r[s].hashKey == pos(r[s].process);
    }
  }

  /** FindReplicas lists min(count, n) distinct processes: the closest members. */
  lemma ReplicasMeaning(hash: string -> nat, r: seq<HashNode>, k: Slot, count: nat)
    requires IsRing(hash, r)
    ensures var w := ReplicaList(r, k, count);
            |w| == Min(|r|, count) && NoDuplicates(w) && Elements(w) == Replicas(Pos(hash), Members(r), k, count)
  {
    if r != [] {
      WalkMeaning(hash, r, k, Min(|r|, count));
    }
    if count > |r| {
      MembersCount(hash, r);
      ReplicasSaturate(Pos(hash), Members(r), k, |r|);
      ReplicasSaturate(Pos(hash), Members(r), k, count);
    }
  }

  /** On a ring, FindSuccessors of the member at an index is the next min(count, n - 1) members. */
  lemma SuccessorsAreWalk(hash: string -> nat, r: seq<HashNode>, index: nat, count: nat)
    requires IsRing(hash, r) && index < |r|
    ensures TakeUntil(Walk(r, index + 1, count), r[index].process)
         == Walk(r, index + 1, Min(count, |r| - 1))
  {
    forall i, j | 0 <= i < j < |r|
      ensures Listed(r)[i] != Listed(r)[j]
    {
      assert r[i].hashKey < r[j].hashKey;
    }
    AroundUntil(Listed(r), index, count);
  }

  /** The replicas of a key are its route process followed by what FindSuccessors finds for that process. */
  lemma ReplicasAreRouteThenSuccessors(hash: string -> nat, r: seq<HashNode>, k: Slot)
    requires IsRing(hash, r) && r != []
    ensures var route := r[Start(r, k)].process;
            ReplicaList(r, k, REPLICA_COUNT) == [route] + NextOf(hash, r, route, REPLICA_COUNT - 1)
  {
    hide IsRing, Start, Walk, IndexOf, TakeUntil;
    var s := Start(r, k);
    FoundAt(hash, r, s);
    SuccessorsAreWalk(hash, r, s, REPLICA_COUNT - 1);
    WalkStep(r, s, Min(|r|, REPLICA_COUNT));
  }

  /** Every process of a ring is found at its own place. */
  lemma FoundAt(hash: string -> nat, r: seq<HashNode>, s: nat)
    requires IsRing(hash, r) && s < |r|
    ensures IndexOf(r, Pos(hash)(r[s].process)) == s && Present(hash, r, r[s].process)
  {
    assert r[s].process in Members(r);
    IndexOfMember(hash, r, r[s].process);
  }

  lemma WalkStep(r: seq<HashNode>, s: nat, c: nat)
    requires s < |r| && c > 0
    ensures Walk(r, s, c) == [r[s].process] + Walk(r, s + 1, c - 1)
  {
    var w, rest := Walk(r, s, c), Walk(r, s + 1, c - 1);
    forall i | 0 < i < c
      ensures w[i] == rest[i - 1]
    {
      assert s + i == s + 1 + (i - 1);
    }
  }

  /** Stability of the replica lists: one more process changes a key's list only by adding that process. */
  lemma RingJoinStability(hash: string -> nat, r: seq<HashNode>, r': seq<HashNode>, p: Process, k: Slot, count: nat)
    requires IsRing(hash, r) && IsRing(hash, r') && Members(r') == Members(r) + {p}
    ensures forall q :: q in ReplicaList(r', k, count) ==> q == p || q in ReplicaList(r, k, count)
  {
    hide IsRing, ReplicaList, Replicas, Members, NoDuplicates;
    ReplicasMeaning(hash, r, k, count);
    ReplicasMeaning(hash, r', k, count);
    JoinStability(Pos(hash), Members(r), p, k, count);
    forall q | q in ReplicaList(r', k, count)
      ensures q == p || q in ReplicaList(r, k, count)
    {
      assert q in Elements(ReplicaList(r', k, count));
      assert q == p || q in Elements(ReplicaList(r, k, count));
    }
  }

  /** Removing processes keeps every other old replica. */
  lemma RingLeaveStability(hash: string -> nat, r: seq<HashNode>, r': seq<HashNode>, gone: set<Process>, k: Slot,
                           count: nat)
    requires IsRing(hash, r) && IsRing(hash, r') && Members(r') == Members(r) - gone
    ensures forall q :: q in ReplicaList(r, k, count) && q !in gone ==> q in ReplicaList(r', k, count)
  {
    hide IsRing, ReplicaList, Replicas, Members, NoDuplicates;
    ReplicasMeaning(hash, r, k, count);
    ReplicasMeaning(hash, r', k, count);
    FailStability(Pos(hash), Members(r), gone, k, count);
    forall q | q in ReplicaList(r, k, count) && q !in gone
      ensures q in ReplicaList(r', k, count)
    {
      assert q in Elements(ReplicaList(r, k, count));
      assert q in Elements(ReplicaList(r', k, count));
    }
  }
}
