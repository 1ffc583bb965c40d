/** Values shared by every layer of the cluster: processes and sequences (api/proto_utils.go). */
module Api {

  datatype Option<+T> = None | Some(value: T)

  /** A cluster member. Two records denote the same process exactly when address and join time agree
      (IsSameProcess), so the record holds those three components and equality of records is that test. */
  datatype Process = Process(ip: string, port: nat, joinTime: int) {
    function Address(): string {
      ip + ":" + Decimal(port)
    }
  }

  function Decimal(n: nat): string {
    var digit := ["0", "1", "2", "3", "4", "5", "6", "7", "8", "9"][n % 10];
    if n < 10 then digit else Decimal(n / 10) + digit
  }

  // ---- Addresses ----

  predicate IsDigit(c: char) {
    '0' <= c <= '9'
  }

  /** The number a row of digits stands for. */
  function Value(digits: string): (n: int) {
    if digits == [] then 0 else 10 * Value(digits[..|digits| - 1]) + (digits[|digits| - 1] as int - '0' as int)
  }

  /** The text of a number is digits that read back to it. */
  lemma {:induction false} DecimalReads(n: nat)
    ensures Decimal(n) != [] && Value(Decimal(n)) == n && forall i :: 0 <= i < |Decimal(n)| ==> IsDigit(Decimal(n)[i])
    ensures n >= 10 ==> Decimal(n)[0] != '0'
    ensures 0 < n < 10 ==> Decimal(n)[0] != '0'
  {
    if n >= 10 {
      DecimalReads(n / 10);
      hide IsDigit;
      LastDigit(n);
      assert Decimal(n)[..|Decimal(n)| - 1] == Decimal(n / 10);
      assert Decimal(n)[0] == Decimal(n / 10)[0];
    } else {
      assert Decimal(n)[..0] == [];
    }
  }

  lemma LastDigit(n: nat)
    requires n >= 10
    ensures var d := Decimal(n)[|Decimal(n)| - 1];
            Decimal(n) == Decimal(n / 10) + [d] && IsDigit(d) && d as int - '0' as int == n % 10
  {
  }

  /** Two members have the same address exactly when host and port agree, as long as hosts contain no colon. */
  lemma AddressExact(p: Process, q: Process)
    requires ':' !in p.ip && ':' !in q.ip
    ensures p.Address() == q.Address() <==> p.ip == q.ip && p.port == q.port
  {
    if p.Address() == q.Address() {
      HostEnds(p, q);
      assert p.Address() == p.ip + (":" + Decimal(p.port)) && q.Address() == q.ip + (":" + Decimal(q.port));
      assert p.Address()[|p.ip| + 1..] == Decimal(p.port) && q.Address()[|q.ip| + 1..] == Decimal(q.port);
      DecimalReads(p.port);
      DecimalReads(q.port);
    }
  }

  /** The host ends at the first colon. */
  lemma HostEnds(p: Process, q: Process)
    requires ':' !in p.ip && ':' !in q.ip && p.Address() == q.Address()
    ensures p.ip == q.ip
  {
    var a := p.Address();
    NoColonBefore(p, |q.ip|);
    NoColonBefore(q, |p.ip|);
    assert a[..|p.ip|] == p.ip && a[..|q.ip|] == q.ip;
  }

  lemma NoColonBefore(p: Process, k: nat)
    requires ':' !in p.ip && k < |p.Address()| && p.Address()[k] == ':'
    ensures k >= |p.ip|
  {
    assert p.Address() == p.ip + (":" + Decimal(p.port));
  }

  /** The position of a write in the global order: the issuing leader's join time, then its counter. */
  datatype Sequence = Sequence(time: int, count: int) {
    predicate Less(other: Sequence) {
      if time == other.time then count < other.count else time < other.time
    }

    predicate Equal(other: Sequence) {
      time == other.time && count == other.count
    }
  }

  type Byte = b: nat | b < 256

  type Data = seq<Byte>

  function Min(a: int, b: int): int {
    if a < b then a else b
  }

  function Sum(xs: seq<int>): (total: int)
    ensures (forall i :: 0 <= i < |xs| ==> xs[i] >= 0) ==> total >= 0
  {
    if xs == [] then 0 else Sum(xs[..|xs| - 1]) + xs[|xs| - 1]
  }

  lemma PrefixSum(xs: seq<int>, i: nat)
    requires i < |xs|
    ensures Sum(xs[..i + 1]) == Sum(xs[..i]) + xs[i]
  {
    assert xs[..i + 1][..i] == xs[..i];
  }

  ghost function Elements<T>(s: seq<T>): set<T> {
    set x | x in s
  }

  ghost predicate NoDuplicates<T>(s: seq<T>) {
    forall i, j :: 0 <= i < j < |s| ==> s[i] != s[j]
  }

  ghost function UnionOf<T>(ss: seq<set<T>>): set<T> {
    set i, x | 0 <= i < |ss| && x in ss[i] :: x
  }

  lemma UnionOfMore<T>(ss: seq<set<T>>, s: set<T>)
    ensures UnionOf(ss + [s]) == UnionOf(ss) + s
  {
    var t := ss + [s];
    assert t[|ss|] == s && forall i :: 0 <= i < |ss| ==> t[i] == ss[i];
    forall x
      ensures x in UnionOf(t) <==> x in UnionOf(ss) + s
    {
      if x in UnionOf(ss) {
        var i :| 0 <= i < |ss| && x in ss[i];
        assert x in t[i];
      }
      if x in s {
        assert x in t[|ss|];
      }
    }
  }

  /** A duplicate-free list has as many elements as positions. */
  lemma {:induction false} DistinctLength<T>(s: seq<T>)
    requires NoDuplicates(s)
    ensures |Elements(s)| == |s|
  {
    if s == [] {
      assert Elements(s) == {};
    } else {
      var last := |s| - 1;
      DistinctLength(s[..last]);
      assert s == s[..last] + [s[last]];
      assert Elements(s) == Elements(s[..last]) + {s[last]};
      assert s[last] !in Elements(s[..last]);
    }
  }

  lemma SubsetCardinality<T>(a: set<T>, b: set<T>)
    requires a <= b
    ensures |a| <= |b|
    ensures |a| == |b| ==> a == b
  {
    if a != b {
      var x :| x in b && x !in a;
      SubsetCardinality(a, b - {x});
    }
  }

  /** The list up to, not including, the first occurrence of p. */
  function TakeUntil<T(==)>(s: seq<T>, p: T): seq<T> {
    if s == [] || s[0] == p then [] else [s[0]] + TakeUntil(s[1..], p)
  }

  lemma {:induction false} TakeUntilPrefix<T>(s: seq<T>, p: T, i: nat)
    requires i <= |s| && p !in s[..i]
    ensures i < |s| && s[i] == p ==> TakeUntil(s, p) == s[..i]
    ensures i == |s| ==> TakeUntil(s, p) == s
  {
    if i > 0 {
      assert s[0] == s[..i][0];
      assert forall x :: x in s[1..][..i - 1] ==> x in s[..i];
      TakeUntilPrefix(s[1..], p, i - 1);
      assert s[..i] == [s[0]] + s[1..][..i - 1];
    }
  }

  // ---- Cyclic lists ----

  /** Position of the first occurrence, or -1. */
  function Index<T(==)>(list: seq<T>, x: T): (index: int)
    ensures -1 <= index < |list|
    ensures index == -1 <==> x !in list
    ensures index >= 0 ==> list[index] == x && x !in list[..index]
    ensures forall i :: 0 <= i < (if index == -1 then |list| else index) ==> list[i] != x
  {
    if list == [] then -1
    else if list[0] == x then 0
    else
      var rest := Index(list[1..], x);
      assert rest >= 0 ==> list[..rest + 1] == [list[0]] + list[1..][..rest];
      assert forall i :: 1 <= i < |list| ==> list[i] == list[1..][i - 1];
      if rest == -1 then -1 else rest + 1
  }

  /** Positions wrap around the end of the list. */
  function Wrap(i: nat, n: nat): (w: nat)
    requires n > 0
    ensures w < n && (i < n ==> w == i) && (n <= i < 2 * n ==> w == i - n)
  {
    i % n
  }

  /** count elements from a position on, around the list. */
  function Around<T>(list: seq<T>, from: nat, count: nat): (s: seq<T>)
    requires list != []
    ensures |s| == count && forall i :: 0 <= i < count ==> s[i] == list[Wrap(from + i, |list|)]
  {
    seq(count, i requires 0 <= i < count => list[Wrap(from + i, |list|)])
  }

  /** Going around a list without duplicates until one is back at the start: the others, or as many as asked for. */
  lemma AroundUntil<T>(list: seq<T>, index: nat, count: nat)
    requires NoDuplicates(list) && index < |list|
    ensures TakeUntil(Around(list, index + 1, count), list[index]) == Around(list, index + 1, Min(count, |list| - 1))
  {
    hide Wrap, Around;
    var n, p := |list|, list[index];
    var all, c := Around(list, index + 1, count), Min(count, n - 1);
    forall k | 0 <= k < c
      ensures all[k] != p
    {
      assert Wrap(index + 1 + k, n) != index;
    }
    assert p !in all[..c];
    assert c < count ==> all[n - 1] == list[Wrap(index + 1 + (n - 1), n)];
    hide NoDuplicates;
    TakeUntilPrefix(all, p, c);
    assert Around(list, index + 1, c) == all[..c];
  }
}
