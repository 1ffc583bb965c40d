/** The versioned file table of an SDFS server (sdfs/file_table.go). */
module FileTables {
  import opened Api
  import Sorting

  datatype WriteId = WriteId(ip: string, port: int, createTime: int)

  datatype FileVersion = FileVersion(concatName: string, sequence: Sequence, id: WriteId) {
    predicate HasSameId(other: FileVersion) {
      id.ip == other.id.ip && id.port == other.id.port && id.createTime == other.id.createTime
    }
  }

  type Table = map<string, seq<FileVersion>>

  datatype WriteRecord = WriteRecord(file: string, version: FileVersion)

  function Versions(t: Table, file: string): seq<FileVersion> {
    if file in t then t[file] else []
  }

  predicate Clashes(v: FileVersion, w: FileVersion) {
    v.HasSameId(w) || v.sequence.Equal(w.sequence)
  }

  predicate Duplicate(vs: seq<FileVersion>, fv: FileVersion) {
    exists v :: v in vs && Clashes(v, fv)
  }

  /** The table after a write request: a duplicate write id or sequence leaves the versions alone. */
  function Inserted(t: Table, w: WriteRecord): Table {
    var vs := Versions(t, w.file);
    t[w.file := if Duplicate(vs, w.version) then vs else vs + [w.version]]
  }

  /** A write is a duplicate exactly when its write id or its sequence is taken. */
  lemma DuplicateExactly(vs: seq<FileVersion>, fv: FileVersion)
    ensures Duplicate(vs, fv) <==> exists v :: v in vs && (v.id == fv.id || v.sequence == fv.sequence)
  {
  }

  /** The same versions, each list possibly in another order. */
  ghost predicate SameVersions(t: Table, t': Table) {
    t'.Keys == t.Keys && forall f :: f in t ==> multiset(t'[f]) == multiset(t[f])
  }

  /** The tables of a replica from an empty one on, one write request after the other, with any number of reads in
      between: a read sorts the list it looks at. */
  ghost predicate Received(ws: seq<WriteRecord>, ts: seq<Table>) {
    |ts| == |ws| + 1 && ts[0] == map[] && forall i :: 0 <= i < |ws| ==> AfterWrite(ts[i], ws[i], ts[i + 1])
  }

  ghost predicate AfterWrite(before: Table, w: WriteRecord, t: Table) {
    SameVersions(Inserted(before, w), t)
  }

  predicate SeqLess(a: FileVersion, b: FileVersion) {
    a.sequence.Less(b.sequence)
  }

  /** Less and Equal form a strict total order. */
  lemma SequenceOrder(a: Sequence, b: Sequence, c: Sequence)
    ensures a.Less(b) && b.Less(c) ==> a.Less(c)
    ensures a.Less(b) || b.Less(a) || a.Equal(b)
    ensures !(a.Less(b) && b.Less(a)) && !(a.Less(b) && a.Equal(b))
    ensures a.Equal(b) <==> a == b
  {
  }

  // ---- What Get answers ----

  ghost function Newer(s: set<FileVersion>, x: FileVersion): set<FileVersion> {
    set w | w in s && x.sequence.Less(w.sequence)
  }

  ghost predicate DistinctSequences(s: set<FileVersion>) {
    forall x, y :: x in s && y in s && x.sequence == y.sequence ==> x == y
  }

  /** r is the v-th largest version of s, or absent when there are fewer than v. */
  ghost predicate IsAnswer(s: set<FileVersion>, v: int, r: Option<FileVersion>) {
    if v <= |s| then r.Some? && r.value in s && |Newer(s, r.value)| == v - 1 else r == None
  }

  lemma AnswerUnique(s: set<FileVersion>, v: int, r1: Option<FileVersion>, r2: Option<FileVersion>)
    requires DistinctSequences(s) && IsAnswer(s, v, r1) && IsAnswer(s, v, r2)
    ensures r1 == r2
  {
    if v <= |s| && r1.value != r2.value {
      var lo, hi := if SeqLess(r1.value, r2.value) then r1.value else r2.value,
                    if SeqLess(r1.value, r2.value) then r2.value else r1.value;
      assert lo.sequence.Less(hi.sequence);
      assert Newer(s, hi) <= Newer(s, lo) - {hi};
      assert hi in Newer(s, lo);
      SubsetCardinality(Newer(s, hi), Newer(s, lo) - {hi});
    }
  }

  /** In a sorted duplicate-free list the element v places from the end is the v-th largest. */
  lemma SortedAnswer(vs: seq<FileVersion>, v: nat)
    requires NoDuplicates(vs) && DistinctSequences(Elements(vs)) && Sorting.Sorted(SeqLess, vs)
    requires 1 <= v <= |vs|
    ensures IsAnswer(Elements(vs), v, Some(vs[|vs| - v]))
  {
    var i := |vs| - v;
    DistinctLength(vs);
    DistinctLength(vs[i + 1..]);
    NewerAreAbove(vs, i);
  }

  lemma NewerAreAbove(vs: seq<FileVersion>, i: nat)
    requires NoDuplicates(vs) && DistinctSequences(Elements(vs)) && Sorting.Sorted(SeqLess, vs) && i < |vs|
    ensures Newer(Elements(vs), vs[i]) == Elements(vs[i + 1..])
  {
    forall j | 0 <= j < |vs|
      ensures vs[i].sequence.Less(vs[j].sequence) <==> j > i
    {
      assert vs[i] in Elements(vs) && vs[j] in Elements(vs);
      assert j > i ==> !SeqLess(vs[j], vs[i]) && vs[i] != vs[j];
      assert j < i ==> !SeqLess(vs[i], vs[j]);
    }
    hide NoDuplicates, Sorting.Sorted, DistinctSequences;
    forall w
      ensures w in Newer(Elements(vs), vs[i]) <==> w in vs[i + 1..]
    {
      if w in Newer(Elements(vs), vs[i]) {
        var j :| 0 <= j < |vs| && vs[j] == w;
        assert vs[i + 1..][j - i - 1] == w;
      }
      if w in vs[i + 1..] {
        var j :| 0 <= j < |vs| - i - 1 && vs[i + 1..][j] == w;
        assert vs[i + 1 + j] == w;
      }
    }
  }

  class FileTable {
    var files: Table

    constructor ()
      ensures files == map[]
    {
      files := map[];
    }

    /** Get may be asked for the version-th newest version; it sorts the stored versions on the way. */
    method Get(filename: string, version: int) returns (r: Option<FileVersion>)
      requires version >= 1
      modifies this
      ensures SameVersions(old(files), files)
      ensures r.Some? <==> filename in old(files) && version <= |old(files)[filename]|
      ensures r.Some? ==> r.value in old(files)[filename]
      ensures var vs := Versions(old(files), filename);
        NoDuplicates(vs) && DistinctSequences(Elements(vs)) ==> IsAnswer(Elements(vs), version, r)
    {
      ghost var was := Versions(files, filename);
      if NoDuplicates(was) {
        DistinctLength(was);
      }
      if filename !in files || |files[filename]| < version {
        return None;
      }
      var vs := Sorting.Sort(SeqLess, files[filename]);
      Sorting.SamePermutation(vs, files[filename]);
      files := files[filename := vs];
      r := Some(vs[|vs| - version]);
      if NoDuplicates(was) && DistinctSequences(Elements(was)) {
        Sorting.PermutationKeepsDistinct(vs, was);
        assert Elements(vs) == Elements(was);
        SortedAnswer(vs, version);
      }
    }

    method Insert(filename: string, fileVersion: FileVersion) returns (ok: bool)
      modifies this
      ensures files == Inserted(old(files), WriteRecord(filename, fileVersion))
      ensures ok <==> forall v :: v in Versions(old(files), filename) ==>
        v.id != fileVersion.id && v.sequence != fileVersion.sequence
      ensures Versions(files, filename) == Versions(old(files), filename) + if ok then [fileVersion] else []
      ensures forall f :: f != filename ==> Versions(files, f) == Versions(old(files), f)
    {
      if filename !in files {
        files := files[filename := []];
      }
      for i := 0 to |files[filename]|
        invariant files == old(files)[filename := Versions(old(files), filename)]
        invariant forall j :: 0 <= j < i ==> !Clashes(files[filename][j], fileVersion)
      {
        var v := files[filename][i];
        assert v in Versions(old(files), filename);
        if v.HasSameId(fileVersion) {
          assert Clashes(v, fileVersion);
          return false;
        }
        if v.sequence.Equal(fileVersion.sequence) {
          assert Clashes(v, fileVersion);
          return false;
        }
      }
      files := files[filename := files[filename] + [fileVersion]];
      return true;
    }
  }

  // ---- Replicas converge whatever the delivery order ----

  /** Within one file, distinct writes have distinct sequences and distinct write ids. */
  ghost predicate Consistent(ws: set<WriteRecord>) {
    forall a, b :: a in ws && b in ws && a.file == b.file && Clashes(a.version, b.version) ==> a == b
  }

  ghost function VersionsOf(ws: set<WriteRecord>, file: string): set<FileVersion> {
    set w | w in ws && w.file == file :: w.version
  }

  lemma SameVersionsOf(t: Table, t': Table, file: string)
    requires SameVersions(t, t')
    ensures Elements(Versions(t', file)) == Elements(Versions(t, file))
    ensures NoDuplicates(Versions(t, file)) ==> NoDuplicates(Versions(t', file))
  {
    Sorting.SamePermutation(Versions(t', file), Versions(t, file));
    if NoDuplicates(Versions(t, file)) {
      Sorting.PermutationKeepsDistinct(Versions(t', file), Versions(t, file));
    }
  }

  lemma InsertedOnce(t: Table, w: WriteRecord, file: string)
    requires NoDuplicates(Versions(t, file))
    ensures var vs := Versions(Inserted(t, w), file);
            && NoDuplicates(vs)
            && Elements(vs) == Elements(Versions(t, file))
                 + if w.file == file && !Duplicate(Versions(t, file), w.version) then {w.version} else {}
  {
    assert w.version in Versions(t, file) ==> Clashes(w.version, w.version);
  }

  lemma ConsistentSubset(a: set<WriteRecord>, b: set<WriteRecord>)
    requires a <= b && Consistent(b)
    ensures Consistent(a)
  {
  }

  /** The table stores, for a file, exactly these writes, each once. */
  ghost predicate Stores(t: Table, file: string, ws: set<WriteRecord>) {
    NoDuplicates(Versions(t, file)) && Elements(Versions(t, file)) == VersionsOf(ws, file)
  }

  lemma StoresNothing(file: string)
    ensures Stores(map[], file, {})
  {
  }

  lemma StoresOneMore(t: Table, w: WriteRecord, t': Table, file: string, ws: set<WriteRecord>)
    requires Stores(t, file, ws) && AfterWrite(t, w, t') && Consistent(ws + {w})
    ensures Stores(t', file, ws + {w})
  {
    hide Inserted, SameVersions, Duplicate, VersionsOf, NoDuplicates, Consistent;
    InsertedOnce(t, w, file);
    SameVersionsOf(Inserted(t, w), t', file);
    OneMoreWrite(ws, w, t, file);
  }

  lemma ReceivedAt(ws: seq<WriteRecord>, ts: seq<Table>, i: nat)
    requires Received(ws, ts)
    ensures |ts| == |ws| + 1 && ts[0] == map[] && (0 < i < |ts| ==> AfterWrite(ts[i - 1], ws[i - 1], ts[i]))
  {
  }

  /** A table that received a consistent set of writes stores, per file, exactly those writes once. */
  lemma {:induction false} ReceivedIsSet(ws: seq<WriteRecord>, ts: seq<Table>, i: nat, file: string)
    requires Received(ws, ts) && i < |ts| && Consistent(Elements(ws))
    ensures i <= |ws| && Stores(ts[i], file, Elements(ws[..i]))
  {
    hide Received, AfterWrite, Stores, Elements, Consistent;
    ReceivedAt(ws, ts, i);
    if i == 0 {
      NoElements(ws);
      StoresNothing(file);
    } else {
      PrefixElements(ws, i);
      ConsistentSubset(Elements(ws[..i]), Elements(ws));
      ReceivedIsSet(ws, ts, i - 1, file);
      StoresOneMore(ts[i - 1], ws[i - 1], ts[i], file, Elements(ws[..i - 1]));
    }
  }

  lemma NoElements<T>(s: seq<T>)
    ensures Elements(s[..0]) == {}
  {
  }

  lemma PrefixElements<T>(s: seq<T>, i: nat)
    requires 0 < i <= |s|
    ensures Elements(s[..i]) == Elements(s[..i - 1]) + {s[i - 1]} && Elements(s[..i]) <= Elements(s)
  {
    assert s[..i] == s[..i - 1] + [s[i - 1]];
  }

  /** A consistent write is a duplicate only of itself. */
  lemma OneMoreWrite(ws: set<WriteRecord>, w: WriteRecord, t: Table, file: string)
    requires Consistent(ws + {w}) && Elements(Versions(t, file)) == VersionsOf(ws, file)
    ensures VersionsOf(ws + {w}, file)
         == VersionsOf(ws, file) +
            if w.file == file && !Duplicate(Versions(t, file), w.version) then {w.version} else {}
  {
    var vs := Versions(t, file);
    if w.file == file && Duplicate(vs, w.version) {
      var v :| v in vs && Clashes(v, w.version);
      assert v in VersionsOf(ws, file);
      assert WriteRecord(file, v) in ws + {w};
    }
  }

  /** Two replicas that received the same writes, in any order, with any retransmissions and with reads in between,
      give the same answer to Get for every file and version: the v-th largest sequence written. */
  lemma ReplicasAgree(ws1: seq<WriteRecord>, ts1: seq<Table>, ws2: seq<WriteRecord>, ts2: seq<Table>, file: string,
                      v: int, r1: Option<FileVersion>, r2: Option<FileVersion>)
    requires Elements(ws1) == Elements(ws2) && Consistent(Elements(ws1)) && v >= 1
    requires Received(ws1, ts1) && IsAnswer(Elements(Versions(ts1[|ws1|], file)), v, r1)
    requires Received(ws2, ts2) && IsAnswer(Elements(Versions(ts2[|ws2|], file)), v, r2)
    ensures r1 == r2 && IsAnswer(VersionsOf(Elements(ws1), file), v, r1)
  {
    ReceivedIsSet(ws1, ts1, |ws1|, file);
    ReceivedIsSet(ws2, ts2, |ws2|, file);
    assert ws1[..|ws1|] == ws1 && ws2[..|ws2|] == ws2;
    var s := VersionsOf(Elements(ws1), file);
    forall x, y | x in s && y in s && x.sequence == y.sequence
      ensures x == y
    {
      assert WriteRecord(file, x) in Elements(ws1) && WriteRecord(file, y) in Elements(ws1);
      assert Clashes(x, y);
    }
    AnswerUnique(s, v, r1, r2);
  }
}
