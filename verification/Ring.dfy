/** The failure detector's ring (ring/server.go, ring/service.go, ring/mem_list.go): members in order of
    joining, whom each member watches, and who leads. */
module RingServers {
  import opened Api
  import Sorting

  const MAX_SUCCESSORS: nat := 6

  predicate Earlier(a: Process, b: Process) {
    a.joinTime < b.joinTime
  }

  ghost predicate DistinctTimes(list: seq<Process>) {
    forall i, j :: 0 <= i < j < |list| ==> list[i].joinTime != list[j].joinTime
  }

  /** The members in strict order of joining. */
  ghost predicate InOrder(list: seq<Process>) {
    forall i, j :: 0 <= i < j < |list| ==> Earlier(list[i], list[j])
  }

  /** Whom p watches. */
  function SuccessorList(list: seq<Process>, p: Process): seq<Process> {
    if list == [] then []
    else TakeUntil(Around(list, Index(list, p) + 1, Min(MAX_SUCCESSORS, |list|)), p)
  }

  class RingServer {
    const process: Process
    var membershipList: seq<Process>

    constructor (process: Process)
      ensures this.process == process && membershipList == []
    {
      this.process := process;
      membershipList := [];
    }

    method FindProcessIndex(p: Process) returns (index: int)
      ensures index == Index(membershipList, p)
    {
      for i := 0 to |membershipList|
        invariant p !in membershipList[..i]
      {
        if membershipList[i] == p {
          return i;
        }
      }
      assert membershipList[..|membershipList|] == membershipList;
      return -1;
    }

    /** The members this process watches; the list is sorted on the way. */
    method Successors() returns (successors: seq<Process>)
      modifies this
      ensures multiset(membershipList) == multiset(old(membershipList))
      ensures DistinctTimes(old(membershipList)) ==> InOrder(membershipList)
      ensures successors == SuccessorList(membershipList, process)
    {
      var sorted := Sorting.Sort(Earlier, membershipList);
      if DistinctTimes(membershipList) {
        SortedInOrder(membershipList, sorted);
      }
      membershipList := sorted;
      var index := FindProcessIndex(process);
      if |membershipList| == 0 {
        return [];
      }
      successors := Collect(index);
    }

    /** At most six members after a position, stopping at this process. */
    method Collect(index: int) returns (successors: seq<Process>)
      requires -1 <= index < |membershipList| && membershipList != []
      ensures successors == TakeUntil(Around(membershipList, index + 1, Min(MAX_SUCCESSORS, |membershipList|)), process)
    {
      hide Wrap, Around, TakeUntil;
      var n := |membershipList|;
      ghost var all := Around(membershipList, index + 1, Min(MAX_SUCCESSORS, n));
      successors := [];
      for i := 0 to Min(MAX_SUCCESSORS, n)
        invariant successors == all[..i] && process !in successors
      {
        var p := membershipList[Wrap(index + i + 1, n)];
        assert p == all[i] && all[..i + 1] == all[..i] + [p];
        if p == process {
          TakeUntilPrefix(all, process, i);
          return;
        }
        successors := successors + [p];
      }
      TakeUntilPrefix(all, process, |all|);
      assert all[..|all|] == all;
    }

    /** The leader's address: the member that joined first. An empty list asks the name service instead. */
    method LookupLeader() returns (leader: Option<string>)
      modifies this
      ensures multiset(membershipList) == multiset(old(membershipList))
      ensures leader == None <==> old(membershipList) == []
      ensures leader.Some? ==>
        exists p :: p in old(membershipList) && p.Address() == leader.value
          && forall q :: q in old(membershipList) ==> !Earlier(q, p)
    {
      if |membershipList| == 0 {
        return None;
      }
      ghost var was := membershipList;
      membershipList := Sorting.Sort(Earlier, membershipList);
      Sorting.SamePermutation(membershipList, was);
      assert membershipList[0] in was;
      return Some(membershipList[0].Address());
    }
  }

  lemma SortedInOrder(list: seq<Process>, sorted: seq<Process>)
    requires DistinctTimes(list) && multiset(sorted) == multiset(list) && Sorting.Sorted(Earlier, sorted)
    ensures InOrder(sorted)
  {
    assert NoDuplicates(list);
    Sorting.PermutationKeepsDistinct(sorted, list);
    Sorting.SamePermutation(sorted, list);
    forall i, j | 0 <= i < j < |sorted|
      ensures Earlier(sorted[i], sorted[j])
    {
      assert sorted[i] in list && sorted[j] in list;
      var x :| 0 <= x < |list| && list[x] == sorted[i];
      var y :| 0 <= y < |list| && list[y] == sorted[j];
      assert x != y && !Earlier(sorted[j], sorted[i]);
      assert x < y ==> list[x].joinTime != list[y].joinTime;
      assert y < x ==> list[y].joinTime != list[x].joinTime;
    }
  }

  /** Members that agree on the membership agree on the order. */
  lemma {:induction false} OrderUnique(a: seq<Process>, b: seq<Process>)
    requires InOrder(a) && InOrder(b) && Elements(a) == Elements(b)
    ensures a == b
  {
    assert b != [] ==> b[0] in Elements(a);
    if a != [] {
      assert forall k :: 0 < k < |a| ==> Earlier(a[0], a[k]);
      assert forall k :: 0 < k < |b| ==> Earlier(b[0], b[k]);
      assert a[0] in Elements(b);
      var i :| 0 <= i < |b| && b[i] == a[0];
      assert b[0] in Elements(a);
      var j :| 0 <= j < |a| && a[j] == b[0];
      assert a[0] == b[0];
      RestElements(a);
      RestElements(b);
      OrderUnique(a[1..], b[1..]);
      assert a == [a[0]] + a[1..] && b == [b[0]] + b[1..];
    }
  }

  lemma RestElements(a: seq<Process>)
    requires InOrder(a) && a != []
    ensures Elements(a[1..]) == Elements(a) - {a[0]}
  {
    assert a == [a[0]] + a[1..];
    assert forall i :: 0 <= i < |a| - 1 ==> a[1..][i] == a[i + 1] && Earlier(a[0], a[i + 1]);
  }

  lemma InOrderDistinct(list: seq<Process>)
    requires InOrder(list)
    ensures NoDuplicates(list)
  {
  }

  // ---- Who watches whom ----

  /** The position d places before j. */
  function Back(n: nat, j: nat, d: nat): (i: nat)
    requires j < n && d < n
    ensures i < n
  {
    if d <= j then j - d else j + n - d
  }

  lemma BackForth(n: nat, i: nat, j: nat, d: nat)
    requires i < n && j < n && d < n
    ensures Wrap(i + d, n) == j <==> Back(n, j, d) == i
  {
    hide Wrap;
  }

  /** The number of members each one watches. */
  function Reach(n: nat): (d: nat)
    requires n > 0
    ensures d < n && d <= MAX_SUCCESSORS
  {
    Min(MAX_SUCCESSORS, n - 1)
  }

  lemma IndexOf(list: seq<Process>, i: nat)
    requires NoDuplicates(list) && i < |list|
    ensures Index(list, list[i]) == i
  {
    assert forall k :: 0 <= k < |list| && list[k] == list[i] ==> k == i;
  }

  /** The loop stops at the process itself, so it collects the next six members, or all the others. */
  lemma SuccessorsAre(list: seq<Process>, i: nat)
    requires NoDuplicates(list) && i < |list|
    ensures SuccessorList(list, list[i]) == Around(list, i + 1, Reach(|list|))
  {
    IndexOf(list, i);
    hide Around, Index, NoDuplicates;
    AroundUntil(list, i, Min(MAX_SUCCESSORS, |list|));
  }

  /** Member j is watched by member i exactly when i is at most Reach places before it. */
  lemma WatchedIff(list: seq<Process>, i: nat, j: nat)
    requires NoDuplicates(list) && i < |list| && j < |list|
    ensures list[j] in SuccessorList(list, list[i]) <==>
              exists d :: 1 <= d <= Reach(|list|) && Back(|list|, j, d) == i
  {
    hide Wrap, Around, SuccessorList;
    var n := |list|;
    SuccessorsAre(list, i);
    var s := Around(list, i + 1, Reach(n));
    forall d | 1 <= d <= Reach(n)
      ensures s[d - 1] == list[j] <==> Back(n, j, d) == i
    {
      BackForth(n, i, j, d);
      assert i + 1 + (d - 1) == i + d;
    }
    hide Back, NoDuplicates;
    if list[j] in s {
      var k :| 0 <= k < |s| && s[k] == list[j];
      assert Back(n, j, k + 1) == i;
    }
    if d :| 1 <= d <= Reach(n) && Back(n, j, d) == i {
      assert s[d - 1] == list[j];
    }
  }

  /** Some survivor watches f. */
  ghost predicate Detected(list: seq<Process>, failed: set<Process>, f: Process) {
    exists p :: p in list && p !in failed && f in SuccessorList(list, p)
  }

  /** A member is detected exactly when one of the members just before it survives. */
  lemma DetectedIff(list: seq<Process>, failed: set<Process>, j: nat)
    requires NoDuplicates(list) && j < |list|
    ensures Detected(list, failed, list[j]) <==>
              exists d :: 1 <= d <= Reach(|list|) && list[Back(|list|, j, d)] !in failed
  {
    var n := |list|;
    if Detected(list, failed, list[j]) {
      var p :| p in list && p !in failed && list[j] in SuccessorList(list, p);
      var i :| 0 <= i < n && list[i] == p;
      WatchedIff(list, i, j);
    }
    if d :| 1 <= d <= Reach(n) && list[Back(n, j, d)] !in failed {
      WatchedIff(list, Back(n, j, d), j);
      assert list[Back(n, j, d)] in list;
    }
  }

  /** The d + 1 members ending at j. */
  ghost function RunUpTo(list: seq<Process>, j: nat, d: nat): (s: seq<Process>)
    requires j < |list| && d < |list|
    ensures |s| == d + 1 && forall e :: 0 <= e <= d ==> s[e] == list[Back(|list|, j, e)]
  {
    seq(d + 1, e requires 0 <= e <= d => list[Back(|list|, j, e)])
  }

  lemma RunDistinct(list: seq<Process>, j: nat, d: nat)
    requires NoDuplicates(list) && j < |list| && d < |list|
    ensures NoDuplicates(RunUpTo(list, j, d)) && |Elements(RunUpTo(list, j, d))| == d + 1
  {
    var s := RunUpTo(list, j, d);
    forall a, b | 0 <= a < b < |s|
      ensures s[a] != s[b]
    {
      assert Back(|list|, j, a) != Back(|list|, j, b);
    }
    DistinctLength(s);
  }

  lemma RunInside(list: seq<Process>, failed: set<Process>, j: nat, d: nat)
    requires NoDuplicates(list) && j < |list| && d < |list|
    requires forall e :: 0 <= e <= d ==> list[Back(|list|, j, e)] in failed
    ensures |failed| > d
  {
    RunDistinct(list, j, d);
    assert Elements(RunUpTo(list, j, d)) <= failed;
    SubsetCardinality(Elements(RunUpTo(list, j, d)), failed);
  }

  /** Completeness: at most six simultaneous failures that leave a survivor are all detected. */
  lemma Completeness(list: seq<Process>, failed: set<Process>, f: Process)
    requires NoDuplicates(list) && failed < Elements(list) && |failed| <= 6 && f in failed
    ensures Detected(list, failed, f)
  {
    assert f in list;
    var j :| 0 <= j < |list| && list[j] == f;
    hide Detected, NoDuplicates;
    CompletenessAt(list, failed, j);
  }

  lemma CompletenessAt(list: seq<Process>, failed: set<Process>, j: nat)
    requires NoDuplicates(list) && failed < Elements(list) && |failed| <= 6 && j < |list| && list[j] in failed
    ensures Detected(list, failed, list[j])
  {
    hide Detected, NoDuplicates;
    var d := Reach(|list|);
    DetectedIff(list, failed, j);
    DistinctLength(list);
    SubsetCardinality(failed, Elements(list));
    hide Elements;
    if forall e :: 0 <= e <= d ==> list[Back(|list|, j, e)] in failed {
      RunInside(list, failed, j, d);
    } else {
      var e :| 0 <= e <= d && list[Back(|list|, j, e)] !in failed;
      assert e > 0;
    }
  }

  /** The same for members that each sorted their own copy of a common membership. */
  lemma AgreedCompleteness(views: map<Process, seq<Process>>, list: seq<Process>, failed: set<Process>, f: Process)
    requires InOrder(list) && failed < Elements(list) && |failed| <= 6 && f in failed
    requires forall p :: p in list ==> p in views && InOrder(views[p]) && Elements(views[p]) == Elements(list)
    ensures exists p :: p in list && p !in failed && f in SuccessorList(views[p], p)
  {
    InOrderDistinct(list);
    Completeness(list, failed, f);
    var p :| p in list && p !in failed && f in SuccessorList(list, p);
    OrderUnique(views[p], list);
  }

  lemma RunMembers(list: seq<Process>, j: nat, d: nat)
    requires j < |list| && d < |list|
    ensures list[j] in Elements(RunUpTo(list, j, d)) && Elements(RunUpTo(list, j, d)) <= Elements(list)
    ensures forall e :: 0 <= e <= d ==> list[Back(|list|, j, e)] in Elements(RunUpTo(list, j, d))
  {
    var run := RunUpTo(list, j, d);
    assert run[0] == list[j];
    forall e | 0 <= e <= d
      ensures list[Back(|list|, j, e)] in Elements(run) && run[e] in Elements(list)
    {
      assert run[e] == list[Back(|list|, j, e)] && run[e] in run;
    }
    forall x | x in Elements(run)
      ensures x in Elements(list)
    {
      var e :| 0 <= e < |run| && run[e] == x;
    }
  }

  /** Seven neighbours failing together, with a survivor left, hide the last of them. */
  lemma SevenHide(list: seq<Process>, j: nat)
    requires NoDuplicates(list) && j < |list| && |list| > 7
    ensures var failed := Elements(RunUpTo(list, j, 6));
            failed < Elements(list) && |failed| == 7 &&
            list[j] in failed && !Detected(list, failed, list[j])
  {
    var failed := Elements(RunUpTo(list, j, 6));
    hide Detected, Elements, Back;
    RunDistinct(list, j, 6);
    RunMembers(list, j, 6);
    DistinctLength(list);
    DetectedIff(list, failed, j);
    if Elements(list) <= failed {
      SubsetCardinality(Elements(list), failed);
    }
  }

  ghost predicate AllDetected(list: seq<Process>, failed: set<Process>) {
    forall f :: f in failed ==> Detected(list, failed, f)
  }

  /** The detector is complete for k simultaneous failures exactly when k is at most six or the ring has at
      most seven members. */
  lemma CompleteExactly(list: seq<Process>, k: nat)
    requires NoDuplicates(list) && list != []
    ensures (forall failed :: failed < Elements(list) && |failed| <= k ==> AllDetected(list, failed))
       <==> k <= 6 || |list| <= 7
  {
    if k <= 6 || |list| <= 7 {
      forall failed | failed < Elements(list) && |failed| <= k
        ensures AllDetected(list, failed)
      {
        DistinctLength(list);
        SubsetCardinality(failed, Elements(list));
        forall f | f in failed
          ensures Detected(list, failed, f)
        {
          Completeness(list, failed, f);
        }
      }
    } else {
      SevenHide(list, 0);
      assert !AllDetected(list, Elements(RunUpTo(list, 0, 6)));
    }
  }
}
