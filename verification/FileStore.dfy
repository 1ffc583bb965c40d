/** What one SDFS server keeps of the versions it lists (sdfs/service.go, sdfs/server.go): the file table, the
    files on disk, and the pool of names to delete.

    A write request enters the table and the cache first and reaches the disk later, if the disk does not fail; a
    recycled or deleted file leaves the table at once, its names wait in the pool, are taken out one by one, and are
    erased later. Every half is a step. */
module FileStores {
  import opened Api
  import opened FileTables
  import LfuSpec
  import Sorting

  const CACHE_SIZE: nat := 100 * 1024 * 1024
  const CACHE_LIMIT: nat := 10 * 1024 * 1024  // larger data is not cached

  /** The file system name of a version. */
  type Naming = (string, Sequence) -> string

  ghost predicate Injective(name: Naming) {
    forall f, q, f', q' :: name(f, q) == name(f', q') ==> f == f' && q == q'
  }

  /** A disk write that is still to come. */
  datatype Pending = Pending(name: string, data: Data)

  datatype Store = Store(
    table: Table,
    disk: map<string, Data>,
    writing: multiset<Pending>,  // accepted, not yet on disk
    pool: seq<string>,
    removing: set<string>,       // taken out of the pool, not yet erased
    cache: LfuSpec.Cache)

  const EMPTY: Store := Store(map[], map[], multiset{}, [], {}, LfuSpec.Cache([], 0))

  datatype Step =
    | Accept(file: string, data: Data, sequence: Sequence, id: WriteId)
    | Persist(pending: Pending)
    | Fail(pending: Pending, left: Option<Data>)  // the file as it was, or cut off
    | Hit(key: string)
    | Reorder(table: Table)  // reads sort the lists they look at
    | Drop(file: string)
    | Take
    | Erase(name: string)

  function Version(name: Naming, file: string, sequence: Sequence, id: WriteId): FileVersion {
    FileVersion(name(file, sequence), sequence, id)
  }

  function Names(vs: seq<FileVersion>): (ns: seq<string>)
    ensures |ns| == |vs| && forall i :: 0 <= i < |vs| ==> ns[i] == vs[i].concatName
  {
    seq(|vs|, i requires 0 <= i < |vs| => vs[i].concatName)
  }

  /** The request brings a version the table does not have. */
  predicate IsNew(name: Naming, s: Store, step: Step) {
    step.Accept? && !Duplicate(Versions(s.table, step.file), Version(name, step.file, step.sequence, step.id))
  }

  predicate Cacheable(data: Data) {
    |data| <= CACHE_LIMIT
  }

  /** Putting the new version into the cache crashes. */
  predicate Crashes(name: Naming, s: Store, step: Step) {
    IsNew(name, s, step) && Cacheable(step.data)
    && LfuSpec.Put(s.cache, name(step.file, step.sequence), step.data, CACHE_SIZE) == None
  }

  function CachePut(c: LfuSpec.Cache, key: string, data: Data): LfuSpec.Cache {
    var r := LfuSpec.Put(c, key, data, CACHE_SIZE);
    if Cacheable(data) && r.Some? then r.value else c
  }

  ghost predicate Enabled(s: Store, step: Step) {
    match step
    case Accept(_, _, _, _) => true
    case Persist(w) => w in s.writing
    case Fail(w, _) => w in s.writing
    case Hit(_) => true
    case Reorder(t) => SameVersions(s.table, t)
    case Drop(f) => f in s.table
    case Take => s.pool != []
    case Erase(n) => n in s.removing
  }

  ghost function Apply(name: Naming, s: Store, step: Step): Store
    requires Enabled(s, step)
  {
    match step
    case Accept(f, data, q, id) =>
      s.(table := Inserted(s.table, WriteRecord(f, Version(name, f, q, id))),
         writing := if IsNew(name, s, step) then s.writing + multiset{Pending(name(f, q), data)} else s.writing,
         cache := if IsNew(name, s, step) then CachePut(s.cache, name(f, q), data) else s.cache)
    case Persist(w) => s.(disk := s.disk[w.name := w.data], writing := s.writing - multiset{w})
    case Fail(w, left) =>
      s.(disk := if left.Some? then s.disk[w.name := left.value] else s.disk, writing := s.writing - multiset{w})
    case Hit(k) => s.(cache := LfuSpec.Get(s.cache, k))
    case Reorder(t) => s.(table := t)
    case Drop(f) => s.(table := s.table - {f}, pool := s.pool + Names(s.table[f]))
    case Take => s.(pool := s.pool[1..], removing := s.removing + {s.pool[0]})
    case Erase(n) => s.(disk := s.disk - {n}, removing := s.removing - {n})
  }

  /** The state after some steps, if all of them are possible. */
  ghost function Exec(name: Naming, s: Store, steps: seq<Step>): Option<Store> {
    if steps == [] then Some(s)
    else
      var r := Exec(name, s, steps[..|steps| - 1]);
      if r.Some? && Enabled(r.value, steps[|steps| - 1]) then Some(Apply(name, r.value, steps[|steps| - 1])) else None
  }

  lemma ExecMore(name: Naming, s: Store, steps: seq<Step>, step: Step)
    ensures Exec(name, s, steps + [step])
         == var r := Exec(name, s, steps);
            if r.Some? && Enabled(r.value, step) then Some(Apply(name, r.value, step)) else None
  {
    hide Enabled, Apply;
    assert (steps + [step])[..|steps|] == steps;
  }

  lemma ExecOne(name: Naming, s: Store, step: Step)
    requires Enabled(s, step)
    ensures Exec(name, s, [step]) == Some(Apply(name, s, step))
  {
    hide Enabled, Apply;
    ExecMore(name, s, [], step);
    assert [] + [step] == [step];
  }

  lemma {:induction false} ExecConcat(name: Naming, s: Store, steps: seq<Step>, more: seq<Step>)
    requires Exec(name, s, steps).Some?
    ensures Exec(name, s, steps + more) == Exec(name, Exec(name, s, steps).value, more)
  {
    hide Enabled, Apply;
    if more == [] {
      assert steps + more == steps;
    } else {
      var n := |more| - 1;
      ExecConcat(name, s, steps, more[..n]);
      assert steps + more == (steps + more[..n]) + [more[n]];
      assert more == more[..n] + [more[n]];
      hide Exec;
      ExecMore(name, s, steps + more[..n], more[n]);
      ExecMore(name, Exec(name, s, steps).value, more[..n], more[n]);
    }
  }

  // ---- What a listed version needs ----

  ghost predicate Lists(t: Table, f: string, v: FileVersion) {
    f in t && v in t[f]
  }

  ghost predicate ClashFree(vs: seq<FileVersion>) {
    NoDuplicates(vs) && forall v, w :: v in vs && w in vs && Clashes(v, w) ==> v == w
  }

  /** Every file has a version, no two versions of a file share a sequence or a write id, and each is stored under
      its own name. */
  ghost predicate WellFormed(name: Naming, t: Table) {
    && (forall f :: f in t ==> t[f] != [] && ClashFree(t[f]))
    && (forall f, v :: Lists(t, f, v) ==> v.concatName == name(f, v.sequence))
  }

  ghost predicate HasData(s: Store, n: string) {
    n in s.disk || IsPending(s, n)
  }

  ghost predicate IsPending(s: Store, n: string) {
    exists w :: w in s.writing && w.name == n
  }

  /** The name is about to be deleted. */
  ghost predicate Condemned(s: Store, n: string) {
    n in s.pool || n in s.removing
  }

  /** Every listed version has its data, and none is about to be deleted. */
  ghost predicate Inv(name: Naming, s: Store) {
    && WellFormed(name, s.table)
    && (forall f, v :: Lists(s.table, f, v) ==> HasData(s, v.concatName) && !Condemned(s, v.concatName))
  }

  /** A new version must not arrive while its name is waiting to be deleted, and disk writes must succeed. */
  ghost predicate Safe(name: Naming, s: Store, step: Step) {
    !step.Fail? && (IsNew(name, s, step) ==> !Condemned(s, name(step.file, step.sequence)))
  }

  // ---- What the data is ----

  /** The data clients wrote under a file's sequences. */
  type Content = (string, Sequence) -> Data

  /** A write request brings what was written under its sequence. */
  predicate Brings(content: Content, step: Step) {
    step.Accept? ==> step.data == content(step.file, step.sequence)
  }

  ghost predicate CacheGenuine(name: Naming, content: Content, c: LfuSpec.Cache) {
    && LfuSpec.Inv(c) && LfuSpec.Size(c.order) <= CACHE_SIZE
    && forall e, f, q :: e in c.order && e.key == name(f, q) ==> e.val == content(f, q)
  }

  ghost predicate DiskGenuine(name: Naming, content: Content, disk: map<string, Data>) {
    forall f, q :: name(f, q) in disk ==> disk[name(f, q)] == content(f, q)
  }

  /** Whatever is on disk, on its way there, or in the cache under the name of a version is that version's data. */
  ghost predicate Genuine(name: Naming, content: Content, s: Store) {
    && DiskGenuine(name, content, s.disk)
    && (forall w, f, q :: w in s.writing && w.name == name(f, q) ==> w.data == content(f, q))
    && CacheGenuine(name, content, s.cache)
  }

  /** Putting a version's data into the cache does not crash, as it never makes an entry longer. */
  lemma CachePutGenuine(name: Naming, content: Content, c: LfuSpec.Cache, f: string, q: Sequence)
    requires Injective(name) && CacheGenuine(name, content, c)
    ensures LfuSpec.Put(c, name(f, q), content(f, q), CACHE_SIZE).Some?
    ensures CacheGenuine(name, content, CachePut(c, name(f, q), content(f, q)))
  {
    var k, v := name(f, q), content(f, q);
    if LfuSpec.HasKey(c.order, k) {
      assert LfuSpec.Find(c.order, k).val == v;
    }
    LfuSpec.PutSafe(c, k, v, CACHE_SIZE);
    var s := LfuSpec.Stored(c, k, v);
    LfuSpec.StoredMembers(c, k, v);
    LfuSpec.StoredInv(c, k, v);
    LfuSpec.EvictKeeps(s.order, s.minFreq, CACHE_SIZE);
    var c' := LfuSpec.Put(c, k, v, CACHE_SIZE).value;
    assert forall e :: e in c'.order ==> e in s.order;
    hide LfuSpec.Inv, LfuSpec.Size, LfuSpec.Stored, LfuSpec.Put, LfuSpec.Find;
    forall e, g, p | e in c'.order && e.key == name(g, p)
      ensures e.val == content(g, p)
    {
      assert e in s.order;
    }
  }

  /** Looking something up leaves the cache genuine, and a hit is the version's data. */
  lemma CacheHitGenuine(name: Naming, content: Content, c: LfuSpec.Cache, k: string)
    requires CacheGenuine(name, content, c)
    ensures CacheGenuine(name, content, LfuSpec.Get(c, k))
    ensures forall f, q :: name(f, q) == k && LfuSpec.Result(c, k).Some? ==> LfuSpec.Result(c, k).value == content(f, q)
  {
    LfuSpec.GetKeepsInv(c, k);
    if c.minFreq != 0 && LfuSpec.HasKey(c.order, k) {
      LfuSpec.TouchMembers(c.order, k);
    }
  }

  /** Steps that bring the right data, disk failures aside, keep it right and never crash the cache. */
  lemma GenuineStep(name: Naming, content: Content, s: Store, step: Step)
    requires Injective(name) && Genuine(name, content, s) && Enabled(s, step) && Brings(content, step) && !step.Fail?
    ensures !Crashes(name, s, step) && Genuine(name, content, Apply(name, s, step))
  {
    match step
    case Accept(f, _, q, _) =>
      CachePutGenuine(name, content, s.cache, f, q);
      hide LfuSpec.Put, LfuSpec.Inv, LfuSpec.Size, Duplicate, CachePut, CacheGenuine;
    case Hit(k) => CacheHitGenuine(name, content, s.cache, k);
    case _ => hide CacheGenuine;
  }

  lemma InsertKeepsWellFormed(name: Naming, t: Table, f: string, q: Sequence, id: WriteId)
    requires WellFormed(name, t)
    ensures WellFormed(name, Inserted(t, WriteRecord(f, Version(name, f, q, id))))
  {
    var v, vs := Version(name, f, q, id), Versions(t, f);
    var t' := Inserted(t, WriteRecord(f, v));
    assert Lists(t', f, v) ==> v.concatName == name(f, v.sequence);
    assert forall g, w :: Lists(t', g, w) ==> Lists(t, g, w) || (g == f && w == v);
    if !Duplicate(vs, v) {
      assert v !in vs by {
        assert Clashes(v, v);
      }
      forall x, y | x in vs + [v] && y in vs + [v] && Clashes(x, y)
        ensures x == y
      {
        assert Clashes(x, y) <==> Clashes(y, x);
      }
    }
  }

  lemma ReorderKeeps(t: Table, t': Table)
    requires SameVersions(t, t')
    ensures forall f, v :: Lists(t', f, v) <==> Lists(t, f, v)
    ensures forall f :: f in t && t[f] != [] && ClashFree(t[f]) ==> t'[f] != [] && ClashFree(t'[f])
  {
    forall f | f in t
      ensures forall v :: v in t'[f] <==> v in t[f]
      ensures t[f] != [] && ClashFree(t[f]) ==> t'[f] != [] && ClashFree(t'[f])
    {
      Sorting.SamePermutation(t'[f], t[f]);
      if NoDuplicates(t[f]) {
        Sorting.PermutationKeepsDistinct(t'[f], t[f]);
      }
    }
  }

  lemma AcceptKeeps(name: Naming, s: Store, step: Step)
    requires Inv(name, s) && step.Accept? && Safe(name, s, step)
    ensures Inv(name, Apply(name, s, step))
  {
    var s', v := Apply(name, s, step), Version(name, step.file, step.sequence, step.id);
    InsertKeepsWellFormed(name, s.table, step.file, step.sequence, step.id);
    hide WellFormed, Duplicate;
    var n := v.concatName;
    assert IsNew(name, s, step) ==> Pending(n, step.data) in s'.writing && Pending(n, step.data).name == n;
    assert forall w :: w in s.writing ==> w in s'.writing;
    forall f, w | Lists(s'.table, f, w)
      ensures HasData(s', w.concatName) && !Condemned(s', w.concatName)
    {
      assert Lists(s.table, f, w) || (IsNew(name, s, step) && w == v);
    }
  }

  lemma DropKeeps(name: Naming, s: Store, file: string)
    requires Injective(name) && Inv(name, s) && file in s.table
    ensures Inv(name, Apply(name, s, Drop(file)))
  {
    var s' := Apply(name, s, Drop(file));
    forall f, w | Lists(s'.table, f, w)
      ensures Lists(s.table, f, w) && w.concatName !in Names(s.table[file])
    {
      forall i | 0 <= i < |s.table[file]|
        ensures s.table[file][i].concatName != w.concatName
      {
        assert Lists(s.table, file, s.table[file][i]) && Lists(s.table, f, w);
      }
    }
  }

  lemma StepKeeps(name: Naming, s: Store, step: Step)
    requires Injective(name) && Inv(name, s) && Enabled(s, step) && Safe(name, s, step)
    ensures Inv(name, Apply(name, s, step))
  {
    hide LfuSpec.Get, LfuSpec.Put, CachePut;
    match step
    case Accept(_, _, _, _) => AcceptKeeps(name, s, step);
    case Reorder(t) => ReorderKeeps(s.table, t);
    case Drop(f) => DropKeeps(name, s, f);
    case Persist(w) => PersistKeeps(name, s, w);
    case Fail(_, _) =>
    case _ =>
  }

  lemma PersistKeeps(name: Naming, s: Store, w: Pending)
    requires Inv(name, s) && w in s.writing
    ensures Inv(name, Apply(name, s, Persist(w)))
  {
    var s' := Apply(name, s, Persist(w));
    hide WellFormed;
    forall n | HasData(s, n)
      ensures HasData(s', n)
    {
      if n !in s.disk && n != w.name {
        var x :| x in s.writing && x.name == n;
        assert x in s'.writing;
      }
    }
  }

  // ---- Runs ----

  /** Every new version arrives under a name that is not waiting to be deleted, with the data written under its
      sequence, and no disk write fails. */
  ghost predicate SafeRun(name: Naming, content: Content, steps: seq<Step>)
    requires Exec(name, EMPTY, steps).Some?
  {
    steps == [] ||
      var n := |steps| - 1;
      && SafeRun(name, content, steps[..n])
      && Safe(name, Exec(name, EMPTY, steps[..n]).value, steps[n]) && Brings(content, steps[n])
  }

  /** The version's data is on disk, or on its way there. */
  ghost predicate Intact(s: Store, content: Content, f: string, v: FileVersion) {
    IsPending(s, v.concatName) || (v.concatName in s.disk && s.disk[v.concatName] == content(f, v.sequence))
  }

  lemma {:induction false} RunKeeps(name: Naming, content: Content, steps: seq<Step>)
    requires Injective(name) && Exec(name, EMPTY, steps).Some? && SafeRun(name, content, steps)
    ensures var s := Exec(name, EMPTY, steps).value; Inv(name, s) && Genuine(name, content, s)
  {
    if steps != [] {
      var n := |steps| - 1;
      RunKeeps(name, content, steps[..n]);
      hide Inv, Genuine, Injective, Enabled, Apply, Safe, Brings;
      RunStep(name, content, Exec(name, EMPTY, steps[..n]).value, steps[n]);
    } else {
      EmptyKeeps(name, content);
    }
  }

  lemma EmptyKeeps(name: Naming, content: Content)
    ensures Inv(name, EMPTY) && Genuine(name, content, EMPTY)
  {
  }

  lemma RunStep(name: Naming, content: Content, s: Store, step: Step)
    requires Injective(name) && Inv(name, s) && Genuine(name, content, s)
    requires Enabled(s, step) && Safe(name, s, step) && Brings(content, step)
    ensures Inv(name, Apply(name, s, step)) && Genuine(name, content, Apply(name, s, step)) && !Crashes(name, s, step)
  {
    assert !step.Fail?;
    hide Inv, Genuine, Injective, Enabled, Apply, Safe, Brings;
    StepKeeps(name, s, step);
    GenuineStep(name, content, s, step);
  }

  lemma ListedIntact(name: Naming, content: Content, s: Store, f: string, v: FileVersion)
    requires Inv(name, s) && Genuine(name, content, s) && Lists(s.table, f, v)
    ensures Intact(s, content, f, v) && !Condemned(s, v.concatName)
    ensures v.concatName in s.disk ==> s.disk[v.concatName] == content(f, v.sequence)
    ensures LfuSpec.Result(s.cache, v.concatName).Some? ==>
      LfuSpec.Result(s.cache, v.concatName).value == content(f, v.sequence)
  {
    assert v.concatName == name(f, v.sequence) && HasData(s, v.concatName);
    hide Inv;
    CacheHitGenuine(name, content, s.cache, v.concatName);
  }

  /** Over every such run, whatever the order of requests, reads, deletions and the disk: each version in the table
      has its data, the very data written under its sequence, also when it is read from the cache; and the next such
      request does not crash the cache. */
  lemma DataNeverMissing(name: Naming, content: Content, steps: seq<Step>, f: string, v: FileVersion)
    requires Injective(name) && Exec(name, EMPTY, steps).Some? && SafeRun(name, content, steps)
    ensures var s := Exec(name, EMPTY, steps).value;
      && (Lists(s.table, f, v) ==>
            && Intact(s, content, f, v) && !Condemned(s, v.concatName)
            && (v.concatName in s.disk ==> s.disk[v.concatName] == content(f, v.sequence))
            && (LfuSpec.Result(s.cache, v.concatName).Some? ==>
                  LfuSpec.Result(s.cache, v.concatName).value == content(f, v.sequence)))
      && !Crashes(name, s, Accept(f, content(f, v.sequence), v.sequence, v.id))
  {
    var s := Exec(name, EMPTY, steps).value;
    RunKeeps(name, content, steps);
    hide Exec, SafeRun;
    GenuineStep(name, content, s, Accept(f, content(f, v.sequence), v.sequence, v.id));
    if Lists(s.table, f, v) {
      ListedIntact(name, content, s, f, v);
    }
  }

  /** What goes on without any request: disk writes, failing or not, and deletions. */
  predicate Background(step: Step, failing: bool) {
    step.Persist? || step.Take? || step.Erase? || (failing && step.Fail?)
  }

  ghost predicate AllBackground(steps: seq<Step>, failing: bool) {
    forall i :: 0 <= i < |steps| ==> Background(steps[i], failing)
  }

  /** Background work alone can lead to a state where the version is listed and its data is gone. */
  ghost predicate CanLose(name: Naming, content: Content, s: Store, f: string, v: FileVersion, failing: bool) {
    exists steps: seq<Step> ::
      && AllBackground(steps, failing) && Exec(name, s, steps).Some?
      && Lists(Exec(name, s, steps).value.table, f, v) && !Intact(Exec(name, s, steps).value, content, f, v)
  }

  lemma {:induction false} BackgroundKeeps(name: Naming, content: Content, s: Store, steps: seq<Step>)
    requires Injective(name) && Inv(name, s) && Genuine(name, content, s)
    requires AllBackground(steps, false) && Exec(name, s, steps).Some?
    ensures var r := Exec(name, s, steps).value; Inv(name, r) && Genuine(name, content, r)
  {
    if steps != [] {
      var n := |steps| - 1;
      assert Background(steps[n], false) && AllBackground(steps[..n], false);
      hide Inv, Genuine, Injective, Enabled, Apply, AllBackground;
      BackgroundKeeps(name, content, s, steps[..n]);
      RunStep(name, content, Exec(name, s, steps[..n]).value, steps[n]);
    }
  }

  /** The pool is drained until a condemned name is erased. */
  lemma {:induction false} DrainTo(name: Naming, s: Store, n: string) returns (steps: seq<Step>)
    requires Condemned(s, n)
    ensures AllBackground(steps, false) && Exec(name, s, steps).Some?
    ensures var r := Exec(name, s, steps).value; r.table == s.table && r.writing == s.writing && n !in r.disk
    decreases |s.pool|
  {
    if n in s.removing {
      steps := [Erase(n)];
      ExecOne(name, s, Erase(n));
    } else {
      var s1 := Apply(name, s, Take);
      ExecOne(name, s, Take);
      var rest := DrainTo(name, s1, n);
      ExecConcat(name, s, [Take], rest);
      steps := [Take] + rest;
    }
  }

  /** All pending writes of a name reach the disk. */
  lemma {:induction false} PersistAll(name: Naming, s: Store, n: string) returns (steps: seq<Step>)
    ensures AllBackground(steps, false) && Exec(name, s, steps).Some?
    ensures var r := Exec(name, s, steps).value;
            r.table == s.table && r.pool == s.pool && r.removing == s.removing && !IsPending(r, n)
    decreases |s.writing|
  {
    if IsPending(s, n) {
      var w :| w in s.writing && w.name == n;
      var s1 := Apply(name, s, Persist(w));
      ExecOne(name, s, Persist(w));
      var rest := PersistAll(name, s1, n);
      ExecConcat(name, s, [Persist(w)], rest);
      steps := [Persist(w)] + rest;
    } else {
      steps := [];
    }
  }

  /** Every pending write of a name fails, leaving a wrong file. */
  lemma {:induction false} FailAll(name: Naming, s: Store, n: string, wrong: Data) returns (steps: seq<Step>)
    requires IsPending(s, n)
    ensures AllBackground(steps, true) && Exec(name, s, steps).Some?
    ensures var r := Exec(name, s, steps).value;
            r.table == s.table && !IsPending(r, n) && n in r.disk && r.disk[n] == wrong
    decreases |s.writing|
  {
    var w :| w in s.writing && w.name == n;
    var fail := Fail(w, Some(wrong));
    var s1 := Apply(name, s, fail);
    ExecOne(name, s, fail);
    assert s1 == s.(disk := s.disk[n := wrong], writing := s.writing - multiset{w});
    hide Exec, Apply, Enabled;
    if IsPending(s1, n) {
      var rest := FailAll(name, s1, n, wrong);
      ExecConcat(name, s, [fail], rest);
      steps := [fail] + rest;
    } else {
      steps := [fail];
    }
  }

  /** A version that arrived under a condemned name can lose its data: the disk write is followed by the deletion
      that was meant for its predecessor. */
  lemma CondemnedCanBeLost(name: Naming, content: Content, s: Store, step: Step, failing: bool)
    requires IsNew(name, s, step) && Condemned(s, name(step.file, step.sequence))
    ensures CanLose(name, content, Apply(name, s, step), step.file,
                    Version(name, step.file, step.sequence, step.id), failing)
  {
    var s1, v := Apply(name, s, step), Version(name, step.file, step.sequence, step.id);
    var n := v.concatName;
    assert Lists(s1.table, step.file, v);
    var first := PersistAll(name, s1, n);
    var s2 := Exec(name, s1, first).value;
    var rest := DrainTo(name, s2, n);
    ExecConcat(name, s1, first, rest);
    hide Exec, Apply, Enabled;
    var steps := first + rest;
    assert AllBackground(steps, failing);
    assert !Intact(Exec(name, s1, steps).value, content, step.file, v);
  }

  /** Any new version can be lost to a disk that fails. */
  lemma FailureCanLose(name: Naming, content: Content, s: Store, step: Step)
    requires IsNew(name, s, step)
    ensures CanLose(name, content, Apply(name, s, step), step.file,
                    Version(name, step.file, step.sequence, step.id), true)
  {
    var s1, v := Apply(name, s, step), Version(name, step.file, step.sequence, step.id);
    var right := content(step.file, step.sequence);
    assert Lists(s1.table, step.file, v);
    assert Pending(v.concatName, step.data) in s1.writing;
    hide Apply, Enabled;
    var steps := FailAll(name, s1, v.concatName, if right == [] then [0] else []);
    hide Exec;
    assert !Intact(Exec(name, s1, steps).value, content, step.file, v);
  }

  /** The exact condition, to be checked when a new version arrives: its data can get lost if and only if its name is
      waiting to be deleted, or disk writes can fail. */
  lemma LostExactly(name: Naming, content: Content, s: Store, step: Step, failing: bool)
    requires Injective(name) && Inv(name, s) && Genuine(name, content, s) && IsNew(name, s, step)
    requires Brings(content, step)
    ensures CanLose(name, content, Apply(name, s, step), step.file,
                    Version(name, step.file, step.sequence, step.id), failing)
       <==> Condemned(s, name(step.file, step.sequence)) || failing
  {
    if Condemned(s, name(step.file, step.sequence)) {
      CondemnedCanBeLost(name, content, s, step, failing);
    } else if failing {
      FailureCanLose(name, content, s, step);
    } else {
      var s', f, v := Apply(name, s, step), step.file, Version(name, step.file, step.sequence, step.id);
      RunStep(name, content, s, step);
      hide Inv, Genuine, Apply, Enabled;
      forall steps | AllBackground(steps, false) && Exec(name, s', steps).Some?
        && Lists(Exec(name, s', steps).value.table, f, v)
        ensures Intact(Exec(name, s', steps).value, content, f, v)
      {
        BackgroundKeeps(name, content, s', steps);
        ListedIntact(name, content, Exec(name, s', steps).value, f, v);
      }
    }
  }

  /** It happens to every version of every file that is recycled and pushed back before the pool has drained. */
  lemma PushedBackTooSoon(name: Naming, content: Content, s: Store, f: string, v: FileVersion, data: Data)
    requires WellFormed(name, s.table) && Lists(s.table, f, v)
    ensures var push := Accept(f, data, v.sequence, v.id);
            CanLose(name, content, Apply(name, Apply(name, s, Drop(f)), push), f, v, false)
  {
    var s', push := Apply(name, s, Drop(f)), Accept(f, data, v.sequence, v.id);
    var i :| 0 <= i < |s.table[f]| && s.table[f][i] == v;
    assert v == Version(name, f, v.sequence, v.id);
    assert Names(s.table[f])[i] == v.concatName;
    assert Condemned(s', v.concatName);
    CondemnedCanBeLost(name, content, s', push, false);
  }
}
