/** The reference model of the LFU cache (utils/cache.go): one list of entries in order of last use.

    The concrete cache keeps one linked list per use count; here those lists are the sublists of
    entries with equal count, so a single recency order carries the whole meaning. */
module LfuSpec {
  import opened Api

  datatype Entry = Entry(key: string, val: Data, uses: int)

  /** minFreq is the count whose entries are evicted first. */
  datatype Cache = Cache(order: seq<Entry>, minFreq: int)

  function Size(es: seq<Entry>): nat {
    if es == [] then 0 else |es[0].val| + Size(es[1..])
  }

  /** The entries with a given use count, oldest first. */
  function Used(es: seq<Entry>, f: int): seq<Entry> {
    if es == [] then []
    else if es[0].uses == f then [es[0]] + Used(es[1..], f)
    else Used(es[1..], f)
  }

  predicate HasKey(es: seq<Entry>, k: string) {
    exists e :: e in es && e.key == k
  }

  ghost predicate UniqueKeys(es: seq<Entry>) {
    forall i, j :: 0 <= i < j < |es| ==> es[i].key != es[j].key
  }

  function Find(es: seq<Entry>, k: string): (e: Entry)
    requires HasKey(es, k)
    ensures e in es && e.key == k
  {
    if es[0].key == k then es[0] else Find(es[1..], k)
  }

  /** The list without the entry of a key. */
  function Without(es: seq<Entry>, k: string): (r: seq<Entry>)
    ensures forall e :: e in r ==> e in es
  {
    if es == [] then []
    else if es[0].key == k then es[1..]
    else [es[0]] + Without(es[1..], k)
  }

  // ---- Operations ----

  /** A hit moves the entry to the end with one more use. */
  function Touch(es: seq<Entry>, k: string): seq<Entry>
    requires HasKey(es, k)
  {
    var e := Find(es, k);
    Without(es, k) + [e.(uses := e.uses + 1)]
  }

  function Get(c: Cache, k: string): Cache {
    if c.minFreq == 0 || !HasKey(c.order, k) then c
    else
      var order := Touch(c.order, k);
      Cache(order,
        if Find(c.order, k).uses == c.minFreq && Used(order, c.minFreq) == [] then c.minFreq + 1 else c.minFreq)
  }

  function Result(c: Cache, k: string): Option<Data> {
    if c.minFreq == 0 || !HasKey(c.order, k) then None else Some(Find(c.order, k).val)
  }

  /** The list without its oldest entry of count f. */
  function DropUsed(es: seq<Entry>, f: int): (r: seq<Entry>)
    requires Used(es, f) != []
    ensures Used(r, f) == Used(es, f)[1..]
    ensures forall e :: e in r ==> e in es
    ensures Size(r) == Size(es) - |Used(es, f)[0].val|
  {
    if es[0].uses == f then es[1..] else [es[0]] + DropUsed(es[1..], f)
  }

  /** Evict the oldest entries with count f until the size fits; absent when they run out first. */
  function Evict(es: seq<Entry>, f: int, capacity: nat): Option<seq<Entry>>
    decreases |Used(es, f)|
  {
    if Size(es) <= capacity then Some(es)
    else if Used(es, f) == [] then None
    else Evict(DropUsed(es, f), f, capacity)
  }

  /** What every reachable cache satisfies. */
  ghost predicate Inv(c: Cache) {
    && UniqueKeys(c.order)
    && (forall e :: e in c.order ==> e.uses >= 1)
    && c.minFreq >= 0
    && (c.order != [] ==> c.minFreq >= 1)
  }

  /** The entry a Put leaves at the end of the order. */
  function NewEntry(c: Cache, k: string, v: Data): Entry {
    Entry(k, v, if HasKey(c.order, k) then Find(c.order, k).uses + 1 else 1)
  }

  /** The state of a Put before eviction: a hit with a new value, or a new entry used once. */
  function Stored(c: Cache, k: string, v: Data): Cache {
    Cache(Without(c.order, k) + [NewEntry(c, k, v)], if HasKey(c.order, k) then Get(c, k).minFreq else 1)
  }

  /** The whole Put; absent stands for the crash of evicting from an exhausted list. */
  function Put(c: Cache, k: string, v: Data, capacity: nat): Option<Cache> {
    if capacity == 0 then Some(c)
    else
      var c' := Stored(c, k, v);
      var order := Evict(c'.order, c'.minFreq, capacity);
      if order == None then None else Some(Cache(order.value, c'.minFreq))
  }

  // ---- Laws of the list functions ----

  lemma {:induction false} SizeAppend(a: seq<Entry>, b: seq<Entry>)
    ensures Size(a + b) == Size(a) + Size(b)
  {
    if a == [] {
      assert a + b == b;
    } else {
      SizeAppend(a[1..], b);
      assert (a + b)[1..] == a[1..] + b;
    }
  }

  lemma {:induction false} UsedAppend(a: seq<Entry>, b: seq<Entry>, f: int)
    ensures Used(a + b, f) == Used(a, f) + Used(b, f)
  {
    if a == [] {
      assert a + b == b;
    } else {
      UsedAppend(a[1..], b, f);
      assert (a + b)[1..] == a[1..] + b;
    }
  }

  lemma {:induction false} UsedMembers(es: seq<Entry>, f: int)
    ensures forall e :: e in Used(es, f) <==> e in es && e.uses == f
    ensures UniqueKeys(es) ==> UniqueKeys(Used(es, f))
    ensures |Used(es, f)| <= |es|
  {
    if es != [] {
      UsedMembers(es[1..], f);
      assert forall e :: e in es <==> e == es[0] || e in es[1..];
      assert forall i :: 0 <= i < |Used(es[1..], f)| ==> Used(es[1..], f)[i] in es[1..];
    }
  }

  lemma {:induction false} WithoutSize(es: seq<Entry>, k: string)
    requires HasKey(es, k)
    ensures Size(Without(es, k)) == Size(es) - |Find(es, k).val|
  {
    if es[0].key != k {
      WithoutSize(es[1..], k);
      assert ([es[0]] + Without(es[1..], k))[1..] == Without(es[1..], k);
    }
  }

  lemma {:induction false} WithoutLaws(es: seq<Entry>, k: string)
    requires UniqueKeys(es) && HasKey(es, k)
    ensures UniqueKeys(Without(es, k)) && !HasKey(Without(es, k), k)
    ensures forall e :: e in es && e.key != k ==> e in Without(es, k)
    ensures Size(Without(es, k)) == Size(es) - |Find(es, k).val|
  {
    WithoutSize(es, k);
    if es[0].key != k {
      WithoutLaws(es[1..], k);
      var r := Without(es[1..], k);
      assert forall i :: 0 <= i < |r| ==> r[i] in es[1..];
    }
  }

  /** Removing a key takes it out of the sublist of its count and leaves the others. */
  lemma {:induction false} UsedWithout(es: seq<Entry>, k: string, f: int)
    requires UniqueKeys(es) && HasKey(es, k)
    ensures Used(Without(es, k), f)
         == if Find(es, k).uses == f then Without(Used(es, f), k) else Used(es, f)
  {
    if es[0].key != k {
      assert HasKey(es[1..], k);
      UsedWithout(es[1..], k, f);
      var r := Without(es[1..], k);
      assert ([es[0]] + r)[1..] == r;
    } else {
      UsedMembers(es[1..], f);
    }
  }

  /** The oldest entry of a count, dropped, is its key removed. */
  lemma {:induction false} DropUsedIsWithout(es: seq<Entry>, f: int)
    requires UniqueKeys(es) && Used(es, f) != []
    ensures HasKey(es, Used(es, f)[0].key) && Find(es, Used(es, f)[0].key) == Used(es, f)[0]
    ensures DropUsed(es, f) == Without(es, Used(es, f)[0].key)
  {
    if es[0].uses != f {
      DropUsedIsWithout(es[1..], f);
      UsedMembers(es[1..], f);
      var e := Used(es, f)[0];
      assert e in es[1..];
      var i :| 0 <= i < |es[1..]| && es[1..][i] == e;
      assert es[i + 1] == e;
    }
  }

  lemma FindUnique(es: seq<Entry>, e: Entry)
    requires UniqueKeys(es) && e in es
    ensures HasKey(es, e.key) && Find(es, e.key) == e
  {
    var f := Find(es, e.key);
    var i :| 0 <= i < |es| && es[i] == e;
    var j :| 0 <= j < |es| && es[j] == f;
  }

  // ---- What eviction removes ----

  /** The oldest n entries of count f removed. */
  function DropMany(es: seq<Entry>, f: int, n: nat): (r: seq<Entry>)
    requires n <= |Used(es, f)|
    ensures Used(r, f) == Used(es, f)[n..]
    ensures Size(r) == Size(es) - Size(Used(es, f)[..n])
    decreases n
  {
    if n == 0 then es
    else
      var u := Used(es, f);
      assert u[..n][1..] == u[1..][..n - 1];
      DropMany(DropUsed(es, f), f, n - 1)
  }

  /** Eviction removes the shortest oldest-first run of entries of count f that makes the rest fit, and
      fails exactly when even all of them do not suffice. */
  lemma {:induction false} EvictShortestRun(es: seq<Entry>, f: int, capacity: nat) returns (n: nat)
    ensures Evict(es, f, capacity) == None <==> Size(es) - Size(Used(es, f)) > capacity
    ensures n <= |Used(es, f)|
    ensures Evict(es, f, capacity).Some? ==>
      Evict(es, f, capacity).value == DropMany(es, f, n) && Size(DropMany(es, f, n)) <= capacity
    ensures Evict(es, f, capacity).Some? ==>
      forall m :: 0 <= m < n ==> Size(DropMany(es, f, m)) > capacity
    decreases |Used(es, f)|
  {
    if Size(es) <= capacity || Used(es, f) == [] {
      n := 0;
    } else {
      var rest := EvictShortestRun(DropUsed(es, f), f, capacity);
      n := rest + 1;
      forall m | 0 < m < n
        ensures DropMany(es, f, m) == DropMany(DropUsed(es, f), f, m - 1)
      {
      }
    }
  }

  // ---- The invariant and when Put is safe ----

  lemma {:induction false} EvictKeeps(es: seq<Entry>, f: int, capacity: nat)
    requires UniqueKeys(es) && Evict(es, f, capacity).Some?
    ensures var r := Evict(es, f, capacity).value;
            UniqueKeys(r) && Size(r) <= capacity && forall e :: e in r ==> e in es
    decreases |Used(es, f)|
  {
    if Size(es) > capacity {
      DropUsedIsWithout(es, f);
      WithoutLaws(es, Used(es, f)[0].key);
      EvictKeeps(DropUsed(es, f), f, capacity);
    }
  }

  lemma GetKeepsInv(c: Cache, k: string)
    requires Inv(c)
    ensures Inv(Get(c, k)) && Size(Get(c, k).order) == Size(c.order)
  {
    if c.minFreq != 0 && HasKey(c.order, k) {
      WithoutLaws(c.order, k);
      var e := Find(c.order, k);
      SizeAppend(Without(c.order, k), [e.(uses := e.uses + 1)]);
      TouchMembers(c.order, k);
    }
  }

  lemma TouchMembers(es: seq<Entry>, k: string)
    requires UniqueKeys(es) && HasKey(es, k)
    ensures UniqueKeys(Touch(es, k))
    ensures forall e :: e in Touch(es, k) <==>
      (e in es && e.key != k) || e == Find(es, k).(uses := Find(es, k).uses + 1)
  {
    WithoutLaws(es, k);
    var w := Without(es, k);
    assert forall i :: 0 <= i < |w| ==> w[i] in w && w[i].key != k;
  }

  lemma AppendLaws(w: seq<Entry>, e: Entry)
    requires UniqueKeys(w) && !HasKey(w, e.key)
    ensures UniqueKeys(w + [e]) && Size(w + [e]) == Size(w) + |e.val|
  {
    SizeAppend(w, [e]);
    assert forall i :: 0 <= i < |w| ==> w[i] in w;
  }

  lemma {:induction false} WithoutAbsent(es: seq<Entry>, k: string)
    requires !HasKey(es, k)
    ensures Without(es, k) == es
  {
    if es != [] {
      assert es[0] in es;
      assert forall e :: e in es[1..] ==> e in es;
      WithoutAbsent(es[1..], k);
    }
  }

  lemma StoredSize(c: Cache, k: string, v: Data)
    requires Inv(c)
    ensures Size(Stored(c, k, v).order)
         == Size(c.order) + |v| - (if HasKey(c.order, k) then |Find(c.order, k).val| else 0)
    ensures UniqueKeys(Stored(c, k, v).order)
  {
    if HasKey(c.order, k) {
      WithoutLaws(c.order, k);
    } else {
      WithoutAbsent(c.order, k);
    }
    AppendLaws(Without(c.order, k), NewEntry(c, k, v));
  }

  lemma StoredMembers(c: Cache, k: string, v: Data)
    requires Inv(c)
    ensures forall e :: e in Stored(c, k, v).order ==> (e in c.order && e.key != k) || e == NewEntry(c, k, v)
  {
    if HasKey(c.order, k) {
      WithoutLaws(c.order, k);
    } else {
      WithoutAbsent(c.order, k);
    }
  }

  lemma StoredInv(c: Cache, k: string, v: Data)
    requires Inv(c)
    ensures Inv(Stored(c, k, v))
  {
    StoredSize(c, k, v);
    StoredMembers(c, k, v);
    assert HasKey(c.order, k) ==> Find(c.order, k) in c.order;
  }

  /** Exactly when a Put survives: what it must free beyond capacity is available in the list it evicts from. */
  lemma PutSafeIff(c: Cache, k: string, v: Data, capacity: nat)
    requires Inv(c)
    ensures Put(c, k, v, capacity).Some? <==>
      capacity == 0
      || Size(Stored(c, k, v).order) - Size(Used(Stored(c, k, v).order, Stored(c, k, v).minFreq)) <= capacity
  {
    var s := Stored(c, k, v);
    var _ := EvictShortestRun(s.order, s.minFreq, capacity);
  }

  /** A Put that does not lengthen a stored value never crashes, keeps the invariant and the capacity. */
  lemma PutSafe(c: Cache, k: string, v: Data, capacity: nat)
    requires Inv(c) && Size(c.order) <= capacity
    requires HasKey(c.order, k) ==> |v| <= |Find(c.order, k).val|
    ensures var r := Put(c, k, v, capacity);
            r.Some? && Inv(r.value) && Size(r.value.order) <= capacity
  {
    if capacity > 0 {
      var s := Stored(c, k, v);
      StoredSize(c, k, v);
      StoredInv(c, k, v);
      if !HasKey(c.order, k) {
        var e := Entry(k, v, 1);
        WithoutAbsent(c.order, k);
        UsedAppend(c.order, [e], 1);
        assert Used([e], 1) == [e] && Size([e]) == |v|;
        SizeAppend(Used(c.order, 1), [e]);
      }
      PutSafeIff(c, k, v, capacity);
      EvictKeeps(s.order, s.minFreq, capacity);
    }
  }

  /** An inserting Put evicts exactly the shortest oldest-first run of the least-used entries, possibly
      up to and including the new one, that brings the size within capacity. */
  lemma InsertEvictsLeastUsed(c: Cache, k: string, v: Data, capacity: nat) returns (n: nat)
    requires Inv(c) && Size(c.order) <= capacity && capacity > 0 && !HasKey(c.order, k)
    ensures var all := c.order + [Entry(k, v, 1)];
            && n <= |Used(all, 1)|
            && Put(c, k, v, capacity) == Some(Cache(DropMany(all, 1, n), 1))
            && Size(DropMany(all, 1, n)) <= capacity
            && (forall m :: 0 <= m < n ==> Size(DropMany(all, 1, m)) > capacity)
            && (forall e :: e in all ==> e.uses >= 1)
  {
    WithoutAbsent(c.order, k);
    PutSafe(c, k, v, capacity);
    n := EvictShortestRun(c.order + [Entry(k, v, 1)], 1, capacity);
  }

  // ---- Whole runs ----

  datatype Op = GetOp(key: string) | PutOp(key: string, val: Data)

  /** The cache after a history of calls; absent when one of them crashed. */
  function Run(ops: seq<Op>, capacity: nat): Option<Cache> {
    if ops == [] then Some(Cache([], 0))
    else
      var before := Run(ops[..|ops| - 1], capacity);
      if before == None then None
      else match ops[|ops| - 1]
        case GetOp(k) => Some(Get(before.value, k))
        case PutOp(k, v) => Put(before.value, k, v, capacity)
  }

  /** No call of the history re-puts a resident key with a longer value. */
  ghost predicate NeverLengthens(ops: seq<Op>, capacity: nat) {
    forall i :: 0 <= i < |ops| && ops[i].PutOp? && Run(ops[..i], capacity).Some?
      && HasKey(Run(ops[..i], capacity).value.order, ops[i].key)
      ==> |ops[i].val| <= |Find(Run(ops[..i], capacity).value.order, ops[i].key).val|
  }

  /** The last value put under a key. */
  function LastPut(ops: seq<Op>, k: string): Option<Data> {
    if ops == [] then None
    else
      var op := ops[|ops| - 1];
      if op.PutOp? && op.key == k then Some(op.val) else LastPut(ops[..|ops| - 1], k)
  }

  /** Every history that never lengthens a value runs without a crash within capacity, and every
      resident entry holds the last value put under its key. */
  lemma {:induction false} RunSafe(ops: seq<Op>, capacity: nat)
    requires NeverLengthens(ops, capacity)
    ensures var r := Run(ops, capacity);
            && r.Some? && Inv(r.value) && Size(r.value.order) <= capacity
            && (capacity == 0 ==> r.value.order == [])
            && forall e :: e in r.value.order ==> LastPut(ops, e.key) == Some(e.val)
  {
    if ops != [] {
      var n := |ops| - 1;
      assert forall i :: 0 <= i <= n ==> ops[..n][..i] == ops[..i];
      assert NeverLengthens(ops[..n], capacity) by {
        forall i | 0 <= i < n && ops[i].PutOp? && Run(ops[..i], capacity).Some?
          && HasKey(Run(ops[..i], capacity).value.order, ops[i].key)
          ensures |ops[i].val| <= |Find(Run(ops[..i], capacity).value.order, ops[i].key).val|
        {
        }
      }
      RunSafe(ops[..n], capacity);
      var c := Run(ops[..n], capacity).value;
      match ops[n]
      case GetOp(k) =>
        GetKeepsInv(c, k);
        if c.minFreq != 0 && HasKey(c.order, k) {
          TouchMembers(c.order, k);
        }
      case PutOp(k, v) =>
        PutSafe(c, k, v, capacity);
        if capacity > 0 {
          StoredMembers(c, k, v);
          StoredSize(c, k, v);
          var s := Stored(c, k, v);
          EvictKeeps(s.order, s.minFreq, capacity);
        }
    }
  }

  /** A Get returns the last value put under a resident key, and nothing for any other key. */
  lemma HitReturnsLastPut(ops: seq<Op>, capacity: nat, k: string)
    requires NeverLengthens(ops, capacity)
    ensures var c := Run(ops, capacity);
            && c.Some?
            && (HasKey(c.value.order, k) ==> Result(c.value, k).Some? && Result(c.value, k) == LastPut(ops, k))
            && (!HasKey(c.value.order, k) ==> Result(c.value, k) == None)
  {
    RunSafe(ops, capacity);
    var c := Run(ops, capacity).value;
    if HasKey(c.order, k) {
      var e := Find(c.order, k);
      assert c.order != [] && LastPut(ops, e.key) == Some(e.val);
    }
  }

  // ---- What the counters and the order mean ----

  /** How often a resident key was used since it was inserted. */
  function Uses(ops: seq<Op>, capacity: nat, k: string): nat {
    if ops == [] then 0
    else
      var n := |ops| - 1;
      var before := Run(ops[..n], capacity);
      var resident := before.Some? && HasKey(before.value.order, k);
      if ops[n].key != k then Uses(ops[..n], capacity, k)
      else if resident then Uses(ops[..n], capacity, k) + 1
      else 1
  }

  /** The position of the last call for a key, or -1. */
  function LastUse(ops: seq<Op>, k: string): int {
    if ops == [] then -1 else if ops[|ops| - 1].key == k then |ops| - 1 else LastUse(ops[..|ops| - 1], k)
  }

  ghost predicate ByLastUse(ops: seq<Op>, es: seq<Entry>) {
    forall i, j :: 0 <= i < j < |es| ==> LastUse(ops, es[i].key) < LastUse(ops, es[j].key)
  }

  ghost predicate Counted(ops: seq<Op>, capacity: nat, es: seq<Entry>) {
    forall e :: e in es ==> e.uses == Uses(ops, capacity, e.key)
  }

  lemma {:induction false} LastUseBounds(ops: seq<Op>, k: string)
    ensures -1 <= LastUse(ops, k) < |ops|
  {
    if ops != [] {
      LastUseBounds(ops[..|ops| - 1], k);
    }
  }

  /** The entries of one sequence, in its order. */
  ghost predicate Within(r: seq<Entry>, es: seq<Entry>, at: seq<nat>) {
    && |at| == |r| && (forall i :: 0 <= i < |r| ==> at[i] < |es| && es[at[i]] == r[i])
    && (forall i, j :: 0 <= i < j < |r| ==> at[i] < at[j])
  }

  lemma {:induction false} WithoutWithin(es: seq<Entry>, k: string) returns (at: seq<nat>)
    ensures Within(Without(es, k), es, at)
  {
    if es == [] {
      at := [];
    } else if es[0].key == k {
      at := seq(|es| - 1, i requires 0 <= i => i + 1);
    } else {
      var rest := WithoutWithin(es[1..], k);
      at := Shifted(es, Without(es[1..], k), rest);
    }
  }

  lemma Shifted(es: seq<Entry>, r: seq<Entry>, rest: seq<nat>) returns (at: seq<nat>)
    requires es != [] && Within(r, es[1..], rest)
    ensures Within([es[0]] + r, es, at)
  {
    at := [0] + seq(|rest|, i requires 0 <= i < |rest| => rest[i] + 1);
  }

  lemma WithinTwice(a: seq<Entry>, b: seq<Entry>, c: seq<Entry>, at: seq<nat>, bt: seq<nat>) returns (ct: seq<nat>)
    requires Within(a, b, at) && Within(b, c, bt)
    ensures Within(a, c, ct)
  {
    ct := seq(|at|, i requires 0 <= i < |at| => bt[at[i]]);
  }

  lemma {:induction false} DropWithin(es: seq<Entry>, f: int) returns (at: seq<nat>)
    requires Used(es, f) != []
    ensures Within(DropUsed(es, f), es, at)
  {
    if es[0].uses == f {
      at := seq(|es| - 1, i requires 0 <= i => i + 1);
    } else {
      var rest := DropWithin(es[1..], f);
      at := Shifted(es, DropUsed(es[1..], f), rest);
    }
  }

  lemma {:induction false} EvictWithin(es: seq<Entry>, f: int, capacity: nat) returns (at: seq<nat>)
    requires Evict(es, f, capacity).Some?
    ensures Within(Evict(es, f, capacity).value, es, at)
    decreases |Used(es, f)|
  {
    if Size(es) <= capacity {
      at := seq(|es|, i => i);
    } else {
      var one := DropWithin(es, f);
      var rest := EvictWithin(DropUsed(es, f), f, capacity);
      at := WithinTwice(Evict(es, f, capacity).value, DropUsed(es, f), es, rest, one);
    }
  }

  lemma WithinKeeps(ops: seq<Op>, capacity: nat, r: seq<Entry>, es: seq<Entry>, at: seq<nat>)
    requires Within(r, es, at) && ByLastUse(ops, es) && Counted(ops, capacity, es)
    ensures ByLastUse(ops, r) && Counted(ops, capacity, r)
  {
    forall e | e in r
      ensures e in es
    {
      var i :| 0 <= i < |r| && r[i] == e;
    }
  }

  /** A call for another key changes neither the counts nor the last uses of the rest; its own key is used last. */
  lemma UsedNow(ops: seq<Op>, capacity: nat, w: seq<Entry>, e: Entry)
    requires ops != [] && ByLastUse(ops[..|ops| - 1], w) && Counted(ops[..|ops| - 1], capacity, w)
    requires e.key == ops[|ops| - 1].key && (forall x :: x in w ==> x.key != e.key)
    requires e.uses == Uses(ops, capacity, e.key)
    ensures ByLastUse(ops, w + [e]) && Counted(ops, capacity, w + [e])
  {
    var was, es := ops[..|ops| - 1], w + [e];
    forall i | 0 <= i < |w|
      ensures LastUse(ops, es[i].key) == LastUse(was, w[i].key) < |was| == LastUse(ops, e.key)
    {
      assert w[i] in w;
      LastUseBounds(was, w[i].key);
    }
  }

  /** A miss changes nothing: an absent key is neither counted nor ordered. */
  lemma MissedNow(ops: seq<Op>, capacity: nat, es: seq<Entry>)
    requires ops != [] && ByLastUse(ops[..|ops| - 1], es) && Counted(ops[..|ops| - 1], capacity, es)
    requires forall x :: x in es ==> x.key != ops[|ops| - 1].key
    ensures ByLastUse(ops, es) && Counted(ops, capacity, es)
  {
    forall i | 0 <= i < |es|
      ensures LastUse(ops, es[i].key) == LastUse(ops[..|ops| - 1], es[i].key)
    {
      assert es[i] in es;
    }
  }

  /** Over every history: the entries stand in the order of their last use, and each counts its uses since it was
      inserted. So among the entries of a count the one evicted first is the one not used for longest. */
  lemma {:induction false} RunCounts(ops: seq<Op>, capacity: nat)
    requires NeverLengthens(ops, capacity) && Run(ops, capacity).Some?
    ensures var es := Run(ops, capacity).value.order; ByLastUse(ops, es) && Counted(ops, capacity, es)
  {
    if ops != [] {
      var n := |ops| - 1;
      PrefixNeverLengthens(ops, capacity);
      RunSafe(ops[..n], capacity);
      RunCounts(ops[..n], capacity);
      hide NeverLengthens;
      match ops[n]
      case GetOp(k) => GetCounts(ops, capacity);
      case PutOp(k, v) => PutCounts(ops, capacity);
    }
  }

  lemma PrefixNeverLengthens(ops: seq<Op>, capacity: nat)
    requires ops != [] && NeverLengthens(ops, capacity)
    ensures NeverLengthens(ops[..|ops| - 1], capacity)
  {
    var n := |ops| - 1;
    forall i | 0 <= i < n
      ensures ops[..n][..i] == ops[..i] && ops[..n][i] == ops[i]
    {
    }
  }

  lemma GetCounts(ops: seq<Op>, capacity: nat)
    requires ops != [] && ops[|ops| - 1].GetOp? && Run(ops[..|ops| - 1], capacity).Some?
    requires var c := Run(ops[..|ops| - 1], capacity).value;
             Inv(c) && ByLastUse(ops[..|ops| - 1], c.order) && Counted(ops[..|ops| - 1], capacity, c.order)
    ensures Run(ops, capacity).Some?
    ensures var es := Run(ops, capacity).value.order; ByLastUse(ops, es) && Counted(ops, capacity, es)
  {
    var n, k := |ops| - 1, ops[|ops| - 1].key;
    var c := Run(ops[..n], capacity).value;
    assert Run(ops, capacity) == Some(Get(c, k));
    if HasKey(c.order, k) {
      var w, e := Without(c.order, k), Find(c.order, k);
      assert c.order != [] && Get(c, k).order == w + [e.(uses := e.uses + 1)];
      UsedAgain(ops, capacity);
      assert e.uses == Uses(ops[..n], capacity, k);
      hide Run, Get, Uses, Used, Find;
      AbsentKeys(c, k);
      hide Inv;
      var at := WithoutWithin(c.order, k);
      WithinKeeps(ops[..n], capacity, w, c.order, at);
      hide Without, HasKey, Within;
      UsedNow(ops, capacity, w, e.(uses := e.uses + 1));
    } else {
      MissedNow(ops, capacity, c.order);
    }
  }

  lemma UsedAgain(ops: seq<Op>, capacity: nat)
    requires ops != [] && Run(ops[..|ops| - 1], capacity).Some?
    requires HasKey(Run(ops[..|ops| - 1], capacity).value.order, ops[|ops| - 1].key)
    ensures Uses(ops, capacity, ops[|ops| - 1].key) == Uses(ops[..|ops| - 1], capacity, ops[|ops| - 1].key) + 1
  {
  }

  lemma PutCounts(ops: seq<Op>, capacity: nat)
    requires ops != [] && ops[|ops| - 1].PutOp? && Run(ops[..|ops| - 1], capacity).Some? && Run(ops, capacity).Some?
    requires var c := Run(ops[..|ops| - 1], capacity).value;
             && Inv(c) && (capacity == 0 ==> c.order == [])
             && ByLastUse(ops[..|ops| - 1], c.order) && Counted(ops[..|ops| - 1], capacity, c.order)
    ensures var es := Run(ops, capacity).value.order; ByLastUse(ops, es) && Counted(ops, capacity, es)
  {
    var n, k, v := |ops| - 1, ops[|ops| - 1].key, ops[|ops| - 1].val;
    var c := Run(ops[..n], capacity).value;
    if capacity > 0 {
      var w := Without(c.order, k);
      var at := WithoutWithin(c.order, k);
      WithinKeeps(ops[..n], capacity, w, c.order, at);
      var s := Stored(c, k, v);
      StoredMembers(c, k, v);
      AbsentKeys(c, k);
      if HasKey(c.order, k) {
        assert Find(c.order, k) in c.order;
      }
      UsedNow(ops, capacity, w, NewEntry(c, k, v));
      var kept := EvictWithin(s.order, s.minFreq, capacity);
      WithinKeeps(ops, capacity, Run(ops, capacity).value.order, s.order, kept);
    }
  }

  lemma AbsentKeys(c: Cache, k: string)
    requires Inv(c)
    ensures forall x :: x in Without(c.order, k) ==> x.key != k
  {
    if HasKey(c.order, k) {
      WithoutLaws(c.order, k);
    } else {
      WithoutAbsent(c.order, k);
    }
  }
}
