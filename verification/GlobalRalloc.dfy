/** The global fair-time allocator of ralloc/ralloc.go: a table of best allocations of j resources to the
    first jobs, filled row by row and read back from the last cell. */
module GlobalRalloc {
  import opened Api

  /** The initial value of a cell, larger than every gap the allocator is meant for: 2 to the 63. */
  const SENTINEL: real := 9223372036854775808.0

  type Matrix = seq<seq<real>>

  /** One row of m + 1 query rates per job. */
  ghost predicate Shaped(qps: Matrix, m: nat) {
    qps != [] && forall i :: 0 <= i < |qps| ==> |qps[i]| == m + 1
  }

  function Abs(x: real): real {
    if x < 0.0 then -x else x
  }

  function MaxReal(x: real, y: real): real {
    if x < y then y else x
  }

  function MinReal(x: real, y: real): real {
    if x < y then x else y
  }

  /** What the tables hold for the first jobs and some resources: the gap, the least and the largest rate of
      the stored allocation, and the share of the last of the jobs. */
  datatype Cell = Cell(dp: real, min: real, max: real, alloc: nat)

  /** The gap after adding a job with rate q to a stored allocation. */
  function GapWith(q: real, c: Cell): real {
    MaxReal(MaxReal(Abs(q - c.min), Abs(q - c.max)), c.dp)
  }

  /** The gap of the stored allocation of what is left when job i gets x of j resources, extended by job i. */
  function Extended(qps: Matrix, m: nat, i: nat, j: nat, x: nat): real
    requires Shaped(qps, m) && 0 < i < |qps| && x <= j <= m
    decreases i, 0, 0
  {
    GapWith(qps[i][x], At(qps, m, i - 1, j - x))
  }

  /** The best of the first k shares for job i out of j resources: its gap and the share. */
  function Scan(qps: Matrix, m: nat, i: nat, j: nat, k: nat): (r: (real, nat))
    requires Shaped(qps, m) && 0 < i < |qps| && k <= j + 1 && j <= m
    ensures r.1 <= j
    decreases i, 1, k
  {
    if k == 0 then (SENTINEL, 0)
    else
      var best := Scan(qps, m, i, j, k - 1);
      var gap := Extended(qps, m, i, j, k - 1);
      if gap < best.0 then (gap, k - 1) else best
  }

  function At(qps: Matrix, m: nat, i: nat, j: nat): (c: Cell)
    requires Shaped(qps, m) && i < |qps| && j <= m
    ensures c.alloc <= j
    decreases i, 2, 0
  {
    if i == 0 then Cell(0.0, qps[0][j], qps[0][j], j)
    else
      var best := Scan(qps, m, i, j, j + 1);
      var prev := At(qps, m, i - 1, j - best.1);
      Cell(best.0, MinReal(qps[i][best.1], prev.min), MaxReal(qps[i][best.1], prev.max), best.1)
  }

  /** The allocation a cell stands for, read back through the shares. */
  function Rebuild(qps: Matrix, m: nat, i: nat, j: nat): (a: seq<nat>)
    requires Shaped(qps, m) && i < |qps| && j <= m
    ensures |a| == i + 1
  {
    var share := At(qps, m, i, j).alloc;
    if i == 0 then [share] else Rebuild(qps, m, i - 1, j - share) + [share]
  }

  // ---- The program ----

  /** The four tables agree with the cell of i jobs and j resources. */
  ghost predicate Matches(qps: Matrix, m: nat, dp: array2<real>, min: array2<real>, max: array2<real>,
                          alloc: array2<nat>, i: nat, j: nat)
    requires Shaped(qps, m) && i < |qps| && j <= m && Sized(|qps|, m, dp, min, max, alloc)
    reads dp, min, max, alloc
  {
    Cell(dp[i, j], min[i, j], max[i, j], alloc[i, j]) == At(qps, m, i, j)
  }

  ghost predicate Sized(n: nat, m: nat, dp: array2<real>, min: array2<real>, max: array2<real>, alloc: array2<nat>) {
    && dp.Length0 == min.Length0 == max.Length0 == alloc.Length0 == n
    && dp.Length1 == min.Length1 == max.Length1 == alloc.Length1 == m + 1
    && dp != min && dp != max && min != max
  }

  /** The tables agree with every cell up to row i, and with the first j cells of row i. */
  ghost predicate Filled(qps: Matrix, m: nat, dp: array2<real>, min: array2<real>, max: array2<real>,
                         alloc: array2<nat>, i: nat, j: nat)
    requires Shaped(qps, m) && Sized(|qps|, m, dp, min, max, alloc)
    reads dp, min, max, alloc
  {
    forall x, y :: 0 <= x < |qps| && 0 <= y <= m && (x < i || (x == i && y < j)) ==>
      Matches(qps, m, dp, min, max, alloc, x, y)
  }

  /** The innermost loop: the best share of job i. */
  method BestShare(qps: Matrix, m: nat, i: nat, j: nat, dp: array2<real>, min: array2<real>, max: array2<real>,
                   alloc: array2<nat>) returns (best: real, resource: nat)
    requires Shaped(qps, m) && 0 < i < |qps| && j <= m && Sized(|qps|, m, dp, min, max, alloc)
    requires Filled(qps, m, dp, min, max, alloc, i, j)
    ensures resource <= j && (best, resource) == Scan(qps, m, i, j, j + 1)
  {
    hide At;
    best, resource := SENTINEL, 0;
    for k := 0 to j + 1
      invariant resource <= j && (best, resource) == Scan(qps, m, i, j, k)
    {
      assert Matches(qps, m, dp, min, max, alloc, i - 1, j - k);
      var maxDiff := MaxReal(MaxReal(Abs(qps[i][k] - min[i - 1, j - k]), Abs(qps[i][k] - max[i - 1, j - k])),
              dp[i - 1, j - k]);
      if maxDiff < best {
        best, resource := maxDiff, k;
      }
    }
  }

  lemma AtStep(qps: Matrix, m: nat, i: nat, j: nat)
    requires Shaped(qps, m) && 0 < i < |qps| && j <= m
    ensures var best := Scan(qps, m, i, j, j + 1);
            var prev := At(qps, m, i - 1, j - best.1);
            At(qps, m, i, j)
            == Cell(best.0, MinReal(qps[i][best.1], prev.min), MaxReal(qps[i][best.1], prev.max), best.1)
  {
  }

  method FillCell(qps: Matrix, m: nat, i: nat, j: nat, dp: array2<real>, min: array2<real>, max: array2<real>,
                  alloc: array2<nat>)
    requires Shaped(qps, m) && 0 < i < |qps| && j <= m && Sized(|qps|, m, dp, min, max, alloc)
    requires Filled(qps, m, dp, min, max, alloc, i, j)
    modifies dp, min, max, alloc
    ensures Filled(qps, m, dp, min, max, alloc, i, j + 1)
  {
    hide At, Scan, MinReal, MaxReal;
    var best, resource := BestShare(qps, m, i, j, dp, min, max, alloc);
    assert Matches(qps, m, dp, min, max, alloc, i - 1, j - resource);
    AtStep(qps, m, i, j);
    dp[i, j] := best;
    alloc[i, j] := resource;
    min[i, j] := MinReal(qps[i][resource], min[i - 1, j - resource]);
    max[i, j] := MaxReal(qps[i][resource], max[i - 1, j - resource]);
    assert Matches(qps, m, dp, min, max, alloc, i, j);
    forall x, y | 0 <= x < |qps| && 0 <= y <= m && (x < i || (x == i && y < j))
      ensures Matches(qps, m, dp, min, max, alloc, x, y)
    {
      assert old(Matches(qps, m, dp, min, max, alloc, x, y));
    }
  }

  /** The base row. */
  method FillBase(qps: Matrix, m: nat, dp: array2<real>, min: array2<real>, max: array2<real>, alloc: array2<nat>)
    requires Shaped(qps, m) && Sized(|qps|, m, dp, min, max, alloc)
    modifies dp, min, max, alloc
    ensures Filled(qps, m, dp, min, max, alloc, 1, 0)
  {
    for j := 0 to m + 1
      invariant Filled(qps, m, dp, min, max, alloc, 0, j)
    {
      hide Scan, Filled;
      FillBaseCell(qps, m, j, dp, min, max, alloc);
    }
  }

  method FillBaseCell(qps: Matrix, m: nat, j: nat, dp: array2<real>, min: array2<real>, max: array2<real>,
                      alloc: array2<nat>)
    requires Shaped(qps, m) && j <= m && Sized(|qps|, m, dp, min, max, alloc)
    requires Filled(qps, m, dp, min, max, alloc, 0, j)
    modifies dp, min, max, alloc
    ensures Filled(qps, m, dp, min, max, alloc, 0, j + 1)
  {
    hide Scan;
    assert At(qps, m, 0, j) == Cell(0.0, qps[0][j], qps[0][j], j);
    hide At;
    dp[0, j] := 0.0;
    min[0, j] := qps[0][j];
    max[0, j] := qps[0][j];
    alloc[0, j] := j;
    forall y | 0 <= y < j
      ensures Matches(qps, m, dp, min, max, alloc, 0, y)
    {
      assert old(Matches(qps, m, dp, min, max, alloc, 0, y));
    }
  }

  method GlobalFairTimeRalloc(n: nat, m: nat, qps: Matrix) returns (resources: seq<nat>)
    requires n == |qps| && Shaped(qps, m)
    ensures resources == Rebuild(qps, m, n - 1, m)
  {
    hide At, Scan, Rebuild;
    var dp := new real[n, m + 1];
    var min := new real[n, m + 1];
    var max := new real[n, m + 1];
    var alloc := new nat[n, m + 1];
    FillBase(qps, m, dp, min, max, alloc);
    for i := 1 to n
      invariant Filled(qps, m, dp, min, max, alloc, i, 0)
    {
      for j := 0 to m + 1
        invariant Filled(qps, m, dp, min, max, alloc, i, j)
      {
        FillCell(qps, m, i, j, dp, min, max, alloc);
      }
    }
    resources := Backtrack(qps, m, dp, min, max, alloc);
  }

  method Backtrack(qps: Matrix, m: nat, ghost dp: array2<real>, ghost min: array2<real>, ghost max: array2<real>,
                   alloc: array2<nat>) returns (resources: seq<nat>)
    requires Shaped(qps, m) && Sized(|qps|, m, dp, min, max, alloc)
    requires Filled(qps, m, dp, min, max, alloc, |qps|, 0)
    ensures resources == Rebuild(qps, m, |qps| - 1, m)
  {
    hide At, Scan;
    resources := [];
    var curr := m;
    var i := |qps|;
    while i > 0
      invariant 0 <= i <= |qps| && 0 <= curr <= m
      invariant i > 0 ==> Rebuild(qps, m, |qps| - 1, m) == Rebuild(qps, m, i - 1, curr) + resources
      invariant i == 0 ==> Rebuild(qps, m, |qps| - 1, m) == resources
    {
      i := i - 1;
      assert Matches(qps, m, dp, min, max, alloc, i, curr);
      resources := [alloc[i, curr]] + resources;
      curr := curr - alloc[i, curr];
    }
  }

  // ---- The allocation uses exactly the resources ----

  lemma {:induction false} RebuildSums(qps: Matrix, m: nat, i: nat, j: nat)
    requires Shaped(qps, m) && i < |qps| && j <= m
    ensures Sum(Rebuild(qps, m, i, j)) == j
  {
    var a := Rebuild(qps, m, i, j);
    var share := At(qps, m, i, j).alloc;
    if i == 0 {
      assert a == [j] && a[..0] == [];
    } else {
      RebuildSums(qps, m, i - 1, j - share);
      assert a[..i] == Rebuild(qps, m, i - 1, j - share);
    }
  }

  // ---- The cells describe the allocations they stand for ----

  /** An allocation of at most m resources to each of the first jobs. */
  ghost predicate Allocation(qps: Matrix, m: nat, a: seq<nat>) {
    |a| <= |qps| && forall t :: 0 <= t < |a| ==> a[t] <= m
  }

  function Rates(qps: Matrix, m: nat, a: seq<nat>): (vs: seq<real>)
    requires Shaped(qps, m) && Allocation(qps, m, a)
    ensures |vs| == |a| && forall t :: 0 <= t < |a| ==> vs[t] == qps[t][a[t]]
  {
    seq(|a|, t requires 0 <= t < |a| => qps[t][a[t]])
  }

  /** g is the largest difference between two of the values. */
  ghost predicate IsGap(vs: seq<real>, g: real) {
    && (forall s, t :: 0 <= s < |vs| && 0 <= t < |vs| ==> Difference(vs, s, t) <= g)
    && (exists s, t :: 0 <= s < |vs| && 0 <= t < |vs| && Difference(vs, s, t) == g)
  }

  function Difference(vs: seq<real>, s: nat, t: nat): real
    requires s < |vs| && t < |vs|
  {
    Abs(vs[s] - vs[t])
  }

  ghost predicate IsMin(vs: seq<real>, x: real) {
    x in vs && forall t :: 0 <= t < |vs| ==> x <= vs[t]
  }

  ghost predicate IsMax(vs: seq<real>, x: real) {
    x in vs && forall t :: 0 <= t < |vs| ==> vs[t] <= x
  }

  /** Every two rates of the matrix differ by less than the sentinel. */
  ghost predicate Bounded(qps: Matrix, m: nat)
    requires Shaped(qps, m)
  {
    exists low: real :: Above(qps, m, low)
  }

  ghost predicate Above(qps: Matrix, m: nat, low: real)
    requires Shaped(qps, m)
  {
    forall i, x :: 0 <= i < |qps| && 0 <= x <= m ==> low <= qps[i][x] < low + SENTINEL
  }

  /** Rates from zero up to two to the 63 are. */
  lemma RatesBounded(qps: Matrix, m: nat)
    requires Shaped(qps, m)
    requires forall i, x :: 0 <= i < |qps| && 0 <= x <= m ==> 0.0 <= qps[i][x] < 9223372036854775808.0
    ensures Bounded(qps, m)
  {
    assert Above(qps, m, 0.0);
  }

  /** The cell's figures are those of the values. */
  ghost predicate Describes(c: Cell, vs: seq<real>) {
    IsGap(vs, c.dp) && IsMin(vs, c.min) && IsMax(vs, c.max)
  }

  lemma GapIsSpread(vs: seq<real>, g: real, lo: real, hi: real)
    requires IsMin(vs, lo) && IsMax(vs, hi)
    ensures IsGap(vs, g) <==> g == hi - lo
  {
    var s :| 0 <= s < |vs| && vs[s] == hi;
    var t :| 0 <= t < |vs| && vs[t] == lo;
    assert Difference(vs, s, t) == hi - lo;
  }

  /** Adding a job's rate to described values. */
  lemma DescribesMore(c: Cell, vs: seq<real>, q: real)
    requires Describes(c, vs)
    ensures IsGap(vs + [q], GapWith(q, c))
    ensures IsMin(vs + [q], MinReal(q, c.min)) && IsMax(vs + [q], MaxReal(q, c.max))
  {
    var w := vs + [q];
    assert w[|vs|] == q;
    assert forall t :: 0 <= t < |vs| ==> w[t] == vs[t];
    GapIsSpread(vs, c.dp, c.min, c.max);
    GapIsSpread(w, GapWith(q, c), MinReal(q, c.min), MaxReal(q, c.max));
  }

  lemma {:induction false} RebuildIsAllocation(qps: Matrix, m: nat, i: nat, j: nat)
    requires Shaped(qps, m) && i < |qps| && j <= m
    ensures Allocation(qps, m, Rebuild(qps, m, i, j))
  {
    if i > 0 {
      RebuildIsAllocation(qps, m, i - 1, j - At(qps, m, i, j).alloc);
    }
  }

  /** Scanning finds the first share of least gap, provided some gap is below the sentinel. */
  lemma {:induction false} ScanFinds(qps: Matrix, m: nat, i: nat, j: nat, k: nat)
    requires Shaped(qps, m) && 0 < i < |qps| && 0 < k <= j + 1 && j <= m
    requires forall x :: 0 <= x < k ==> Extended(qps, m, i, j, x) < SENTINEL
    ensures var r := Scan(qps, m, i, j, k);
            && r.1 < k && r.0 == Extended(qps, m, i, j, r.1)
            && (forall x :: 0 <= x < k ==> r.0 <= Extended(qps, m, i, j, x))
            && (forall x :: 0 <= x < r.1 ==> r.0 < Extended(qps, m, i, j, x))
  {
    hide At, Extended;
    if k > 1 {
      ScanFinds(qps, m, i, j, k - 1);
    }
    assert Extended(qps, m, i, j, k - 1) < SENTINEL;
  }

  lemma RatesMore(qps: Matrix, m: nat, a: seq<nat>, x: nat)
    requires Shaped(qps, m) && Allocation(qps, m, a) && |a| < |qps| && x <= m
    ensures Allocation(qps, m, a + [x])
    ensures Rates(qps, m, a + [x]) == Rates(qps, m, a) + [qps[|a|][x]]
  {
  }

  lemma GapOfRates(qps: Matrix, m: nat, a: seq<nat>, g: real)
    requires Shaped(qps, m) && Bounded(qps, m) && Allocation(qps, m, a) && IsGap(Rates(qps, m, a), g)
    ensures g < SENTINEL
  {
    var w := Rates(qps, m, a);
    var s, t :| 0 <= s < |w| && 0 <= t < |w| && Difference(w, s, t) == g;
    hide IsGap;
    var low :| Above(qps, m, low);
    assert w[s] == qps[s][a[s]] && w[t] == qps[t][a[t]];
  }

  /** Extending a described allocation by one more job leaves its gap below the sentinel. */
  lemma GapBelowSentinel(qps: Matrix, m: nat, c: Cell, a: seq<nat>, x: nat)
    requires Shaped(qps, m) && Bounded(qps, m) && Allocation(qps, m, a) && |a| < |qps| && x <= m
    requires Describes(c, Rates(qps, m, a))
    ensures GapWith(qps[|a|][x], c) < SENTINEL
  {
    hide GapWith, Describes, IsGap, IsMin, IsMax, Bounded;
    RatesMore(qps, m, a, x);
    DescribesMore(c, Rates(qps, m, a), qps[|a|][x]);
    GapOfRates(qps, m, a + [x], GapWith(qps[|a|][x], c));
  }

  /** Each cell holds the true gap, minimum and maximum of the allocation read back from it. */
  lemma {:induction false} CellDescribes(qps: Matrix, m: nat, i: nat, j: nat)
    requires Shaped(qps, m) && Bounded(qps, m) && i < |qps| && j <= m
    ensures Allocation(qps, m, Rebuild(qps, m, i, j))
    ensures Describes(At(qps, m, i, j), Rates(qps, m, Rebuild(qps, m, i, j)))
    decreases i, 1
  {
    hide Scan, Bounded, Rates, IsGap, IsMin, IsMax;
    RebuildIsAllocation(qps, m, i, j);
    if i == 0 {
      BaseDescribes(qps, m, j);
    } else {
      ScanIsBest(qps, m, i, j);
      AtStep(qps, m, i, j);
      var r := At(qps, m, i, j).alloc;
      var a := Rebuild(qps, m, i - 1, j - r);
      assert Rebuild(qps, m, i, j) == a + [r];
      hide At, Rebuild, GapWith;
      CellDescribes(qps, m, i - 1, j - r);
      DescribesMore(At(qps, m, i - 1, j - r), Rates(qps, m, a), qps[i][r]);
      RatesMore(qps, m, a, r);
    }
  }

  lemma BaseDescribes(qps: Matrix, m: nat, j: nat)
    requires Shaped(qps, m) && j <= m && Allocation(qps, m, Rebuild(qps, m, 0, j))
    ensures Describes(At(qps, m, 0, j), Rates(qps, m, Rebuild(qps, m, 0, j)))
  {
    var vs := Rates(qps, m, Rebuild(qps, m, 0, j));
    assert vs == [qps[0][j]];
    assert Difference(vs, 0, 0) == 0.0;
  }

  /** Each cell is minimal over the extensions of the stored allocations by one more job, and takes the
      smallest such share. */
  lemma {:induction false} ScanIsBest(qps: Matrix, m: nat, i: nat, j: nat)
    requires Shaped(qps, m) && Bounded(qps, m) && 0 < i < |qps| && j <= m
    ensures var c := At(qps, m, i, j);
            && c.dp == Extended(qps, m, i, j, c.alloc)
            && (forall x :: 0 <= x <= j ==> c.dp <= Extended(qps, m, i, j, x))
            && (forall x :: 0 <= x < c.alloc ==> c.dp < Extended(qps, m, i, j, x))
    decreases i, 0
  {
    hide At, Scan, Rebuild, GapWith, Describes, Bounded;
    forall x | 0 <= x < j + 1
      ensures Extended(qps, m, i, j, x) < SENTINEL
    {
      CellDescribes(qps, m, i - 1, j - x);
      GapBelowSentinel(qps, m, At(qps, m, i - 1, j - x), Rebuild(qps, m, i - 1, j - x), x);
    }
    ScanFinds(qps, m, i, j, j + 1);
    AtStep(qps, m, i, j);
  }

  // ---- Optimality ----

  /** a gives all m resources to the jobs of the matrix. */
  ghost predicate Complete(qps: Matrix, m: nat, a: seq<nat>) {
    |a| == |qps| && Sum(a) == m && Allocation(qps, m, a)
  }

  /** No complete allocation has a smaller gap than the one the allocator returns. */
  ghost predicate Optimal(qps: Matrix, m: nat)
    requires Shaped(qps, m)
  {
    forall a, g :: Complete(qps, m, a) && IsGap(Rates(qps, m, a), g) ==>
      At(qps, m, |qps| - 1, m).dp <= g
  }

  /** The returned allocation is complete and its gap is the last cell's. */
  lemma ResultIsComplete(qps: Matrix, m: nat)
    requires Shaped(qps, m) && Bounded(qps, m)
    ensures var a := Rebuild(qps, m, |qps| - 1, m);
            Complete(qps, m, a) && IsGap(Rates(qps, m, a), At(qps, m, |qps| - 1, m).dp)
  {
    RebuildSums(qps, m, |qps| - 1, m);
    CellDescribes(qps, m, |qps| - 1, m);
  }

  lemma SumOfTwo(a: seq<nat>)
    requires |a| == 2
    ensures Sum(a) == a[0] + a[1]
  {
    assert a[..1][..0] == [] && a[..1][0] == a[0];
    assert Sum(a[..1]) == a[0];
  }

  lemma OptimalForTwo(qps: Matrix, m: nat, a: seq<nat>, g: real)
    requires Shaped(qps, m) && Bounded(qps, m) && |qps| == 2
    requires Complete(qps, m, a) && IsGap(Rates(qps, m, a), g)
    ensures At(qps, m, 1, m).dp <= g
  {
    hide Bounded, Scan;
    SumOfTwo(a);
    var x := a[1];
    ScanIsBest(qps, m, 1, m);
    assert At(qps, m, 1, m).dp <= Extended(qps, m, 1, m, x);
    assert At(qps, m, 0, m - x) == Cell(0.0, qps[0][m - x], qps[0][m - x], m - x);
    var vs := Rates(qps, m, a);
    assert vs[1] == qps[1][x] && vs[0] == qps[0][m - x];
    assert Difference(vs, 1, 0) <= g && Difference(vs, 0, 0) <= g;
  }

  lemma {:induction false} SumZero(a: seq<nat>)
    requires Sum(a) == 0
    ensures forall t :: 0 <= t < |a| ==> a[t] == 0
  {
    if a != [] {
      SumZero(a[..|a| - 1]);
    }
  }

  lemma OptimalForNone(qps: Matrix, a: seq<nat>, g: real)
    requires Shaped(qps, 0) && Bounded(qps, 0)
    requires Complete(qps, 0, a) && IsGap(Rates(qps, 0, a), g)
    ensures At(qps, 0, |qps| - 1, 0).dp <= g
  {
    hide Bounded, Scan, At, Rebuild;
    ResultIsComplete(qps, 0);
    SumZero(a);
    SumZero(Rebuild(qps, 0, |qps| - 1, 0));
    assert a == Rebuild(qps, 0, |qps| - 1, 0);
  }

  /** With at most two jobs, or nothing to give, the allocator minimises the gap over all allocations. */
  lemma OptimalWhenSmall(qps: Matrix, m: nat)
    requires Shaped(qps, m) && Bounded(qps, m) && (|qps| <= 2 || m == 0)
    ensures Optimal(qps, m)
  {
    hide Bounded, Scan, Rebuild;
    forall a, g | Complete(qps, m, a) && IsGap(Rates(qps, m, a), g)
      ensures At(qps, m, |qps| - 1, m).dp <= g
    {
      if m == 0 {
        OptimalForNone(qps, a, g);
      } else if |qps| == 2 {
        OptimalForTwo(qps, m, a, g);
      } else {
        var vs := Rates(qps, m, a);
        assert Difference(vs, 0, 0) <= g;
      }
    }
  }

  // ---- The rates the program allocates by ----

  /** What a job's expected rate depends on, at the moment of the allocation. */
  datatype JobStats = JobStats(total: nat, completed: nat, elapsed: real)

  predicate Running(j: JobStats) {
    0 < j.total && j.completed <= j.total && j.elapsed > 0.0
  }

  predicate AllRunning(jobs: seq<JobStats>) {
    forall i :: 0 <= i < |jobs| ==> Running(jobs[i])
  }

  function SecondPerQuery(j: JobStats): (s: real)
    requires Running(j)
    ensures s >= 0.0
  {
    if j.completed == 0 then 1.0 else j.elapsed / j.completed as real
  }

  /** The rate a job would reach by its end with some resources for the queries that remain. */
  function ExpectedQPS(j: JobStats, resource: nat): real
    requires Running(j)
  {
    if resource == 0 then 0.0
    else Speed(j.total as real, j.elapsed, TimeLeft(j), resource as real)
  }

  /** What the remaining queries would take one by one. */
  function TimeLeft(j: JobStats): (left: real)
    requires Running(j)
    ensures left >= 0.0
  {
    (j.total - j.completed) as real * SecondPerQuery(j)
  }

  function Speed(total: real, elapsed: real, left: real, resource: real): real
    requires elapsed > 0.0 && left >= 0.0 && resource > 0.0
  {
    Shrinks(left, resource, resource);
    total / (elapsed + left / resource)
  }

  lemma Shrinks(left: real, r: real, r': real)
    requires left >= 0.0 && 0.0 < r <= r'
    ensures 0.0 <= left / r' <= left / r
  {
    Quotient(left, r', 0.0);
    var x := left / r';
    assert x * r' == left && x * (r' - r) >= 0.0;
    Quotient(left, r, x);
  }

  /** Comparing a quotient with a number. */
  lemma Quotient(p: real, d: real, x: real)
    requires d > 0.0
    ensures x * d <= p ==> x <= p / d
    ensures x * d < p ==> x < p / d
    ensures p <= x * d ==> p / d <= x
    ensures p < x * d ==> p / d < x
  {
    var q := p / d;
    assert q * d == p;
    if x > q {
      assert (x - q) * d > 0.0;
    } else if x < q {
      assert (q - x) * d > 0.0;
    }
  }

  /** More resources never make a job slower, and none give no rate. */
  lemma MoreNeverSlower(j: JobStats, r: nat, r': nat)
    requires Running(j) && r <= r'
    ensures ExpectedQPS(j, 0) == 0.0 <= ExpectedQPS(j, r) <= ExpectedQPS(j, r')
  {
    hide Speed, TimeLeft;
    var t, e, left := j.total as real, j.elapsed, TimeLeft(j);
    if r > 0 {
      Faster(t, e, left, r as real, r' as real);
    } else if r' > 0 {
      Faster(t, e, left, r' as real, r' as real);
    }
  }

  /** What the rate is: with some resources, the job's queries over the time it will have taken by its end. Its
      remaining queries go on at the speed of its completed ones, or at one second each before the first is
      completed, shared among the resources. */
  lemma RateExact(j: JobStats, r: nat)
    requires Running(j) && r > 0
    ensures j.completed == j.total ==> ExpectedQPS(j, r) * j.elapsed == j.total as real
    ensures j.completed == 0 ==> ExpectedQPS(j, r) * (j.elapsed * r as real + j.total as real) == (j.total * r) as real
    ensures j.completed > 0 ==>
      ExpectedQPS(j, r) * j.elapsed * (j.completed * r + j.total - j.completed) as real
      == (j.total * j.completed * r) as real
  {
    var t, e, c, x := j.total as real, j.elapsed, j.completed as real, r as real;
    var left := TimeLeft(j);
    SpeedExact(t, e, left, x);
    hide Speed;
    var q := ExpectedQPS(j, r);
    assert q * (e * x + left) == t * x;
    assert (j.total * r) as real == t * x;
    if j.completed == 0 {
      assert left == t;
    } else {
      var s := e / c;
      assert s * c == e && left == (t - c) * s;
      RateScaled(q, e, c, x, t, s);
      ScaledCounts(j, r);
      if j.completed == j.total {
        assert left == 0.0;
        FullSpeed(q, e, x, t);
      }
    }
  }

  lemma SpeedExact(t: real, e: real, left: real, r: real)
    requires e > 0.0 && left >= 0.0 && r > 0.0
    ensures Speed(t, e, left, r) * (e * r + left) == t * r
  {
    Shrinks(left, r, r);
    var y := left / r;
    var d := e + y;
    var q := t / d;
    assert q * d == t;
    assert y * r == left;
    assert d * r == e * r + left;
    assert q * (d * r) == (q * d) * r;
  }

  lemma FullSpeed(q: real, e: real, x: real, t: real)
    requires q * (e * x + 0.0) == t * x && x > 0.0
    ensures q * e == t
  {
    assert (q * e - t) * x == 0.0;
  }

  lemma RateScaled(q: real, e: real, c: real, x: real, t: real, s: real)
    requires s * c == e && q * (e * x + (t - c) * s) == t * x
    ensures q * e * (c * x + t - c) == t * c * x
  {
    assert (e * x + (t - c) * s) * c == e * x * c + (t - c) * e by {
      assert (t - c) * s * c == (t - c) * (s * c);
    }
    assert e * x * c + (t - c) * e == e * (c * x + t - c);
    assert q * (e * x + (t - c) * s) * c == t * x * c;
    assert q * ((e * x + (t - c) * s) * c) == q * (e * x + (t - c) * s) * c;
    assert q * (e * (c * x + t - c)) == q * e * (c * x + t - c);
  }

  lemma ScaledCounts(j: JobStats, r: nat)
    requires Running(j)
    ensures (j.completed * r + j.total - j.completed) as real
         == j.completed as real * r as real + j.total as real - j.completed as real
    ensures (j.total * j.completed * r) as real == j.total as real * j.completed as real * r as real
  {
    assert (j.completed * r) as real == j.completed as real * r as real;
    var p := j.total * j.completed;
    assert p as real == j.total as real * j.completed as real;
    assert (p * r) as real == p as real * r as real;
  }

  lemma Faster(t: real, e: real, left: real, r: real, r': real)
    requires t >= 0.0 && e > 0.0 && left >= 0.0 && 0.0 < r <= r'
    ensures 0.0 <= Speed(t, e, left, r) <= Speed(t, e, left, r')
  {
    Shrinks(left, r, r');
    Shrinks(left, r', r');
    var d, d' := e + left / r, e + left / r';
    Shrinks(t, d', d);
  }

  /** The matrix of expected rates, one row per job. */
  function QPSOf(jobs: seq<JobStats>, m: nat): (qps: Matrix)
    requires AllRunning(jobs)
    ensures |qps| == |jobs| && (jobs != [] ==> Shaped(qps, m))
    ensures forall i :: 0 <= i < |jobs| ==>
      |qps[i]| == m + 1 && forall x :: 0 <= x <= m ==> qps[i][x] == ExpectedQPS(jobs[i], x)
  {
    seq(|jobs|, i requires 0 <= i < |jobs| => seq(m + 1, x requires 0 <= x <= m => ExpectedQPS(jobs[i], x)))
  }

  method JobToQPS(jobs: seq<JobStats>, m: nat) returns (qps: Matrix)
    requires AllRunning(jobs)
    ensures qps == QPSOf(jobs, m)
  {
    hide ExpectedQPS;
    qps := [];
    for i := 0 to |jobs|
      invariant qps == QPSOf(jobs, m)[..i]
    {
      var row := [];
      for j := 0 to m + 1
        invariant row == QPSOf(jobs, m)[i][..j]
      {
        row := row + [ExpectedQPS(jobs[i], j)];
      }
      assert row == QPSOf(jobs, m)[i];
      qps := qps + [row];
    }
  }

  /** Nothing for no resources, and never less for more. */
  ghost predicate RateLike(qps: Matrix, m: nat)
    requires Shaped(qps, m)
  {
    && (forall i :: 0 <= i < |qps| ==> qps[i][0] == 0.0)
    && (forall i, x, y :: 0 <= i < |qps| && 0 <= x <= y <= m ==> qps[i][x] <= qps[i][y])
  }

  lemma JobsAreRateLike(jobs: seq<JobStats>, m: nat)
    requires jobs != [] && AllRunning(jobs)
    ensures RateLike(QPSOf(jobs, m), m)
  {
    hide ExpectedQPS;
    var qps := QPSOf(jobs, m);
    forall i, x, y | 0 <= i < |qps| && 0 <= x <= y <= m
      ensures qps[i][0] == 0.0 && qps[i][x] <= qps[i][y]
    {
      MoreNeverSlower(jobs[i], x, y);
    }
  }

  // ---- One resource ----

  /** The largest gap a cell's rates have to each other and to zero. */
  function Reach(c: Cell): real {
    GapWith(0.0, c)
  }

  lemma FromNothing(qps: Matrix, i: nat)
    requires Shaped(qps, 1) && RateLike(qps, 1) && i < |qps|
    ensures qps[i][0] == 0.0 <= qps[i][1]
  {
    assert qps[i][0] <= qps[i][1];
  }

  lemma {:induction false} NothingCell(qps: Matrix, i: nat)
    requires Shaped(qps, 1) && Bounded(qps, 1) && RateLike(qps, 1) && i < |qps|
    ensures At(qps, 1, i, 0) == Cell(0.0, 0.0, 0.0, 0)
  {
    hide Scan, Bounded;
    if i > 0 {
      NothingCell(qps, i - 1);
      ScanIsBest(qps, 1, i, 0);
      AtStep(qps, 1, i, 0);
    }
  }

  /** A cell extended by a job without rate, and one extended from nothing. */
  lemma ReachExtended(c: Cell, q: real)
    requires q >= 0.0
    ensures c.dp <= Reach(c)
    ensures Reach(Cell(Reach(c), MinReal(0.0, c.min), MaxReal(0.0, c.max), 0)) == Reach(c)
    ensures GapWith(q, Cell(0.0, 0.0, 0.0, 0)) == q == Reach(Cell(q, MinReal(q, 0.0), MaxReal(q, 0.0), 1))
  {
  }

  /** With one resource the stored allocation gives it to a job of least rate so far. */
  lemma {:induction false} OneReach(qps: Matrix, i: nat, t: nat)
    requires Shaped(qps, 1) && Bounded(qps, 1) && RateLike(qps, 1) && t <= i < |qps|
    ensures At(qps, 1, i, 1).dp <= Reach(At(qps, 1, i, 1)) <= qps[t][1]
  {
    FromNothing(qps, i);
    if i == 0 {
      assert At(qps, 1, 0, 1) == Cell(0.0, qps[0][1], qps[0][1], 1);
    } else {
      hide Scan, RateLike, Bounded, At, Reach, GapWith, MinReal, MaxReal;
      ReachExtended(At(qps, 1, i, 1), qps[i][1]);
      OneStep(qps, i);
      if t < i {
        OneReach(qps, i - 1, t);
      }
    }
  }

  lemma OneExtended(qps: Matrix, i: nat)
    requires Shaped(qps, 1) && Bounded(qps, 1) && RateLike(qps, 1) && 0 < i < |qps|
    ensures qps[i][0] == 0.0 <= qps[i][1]
    ensures Extended(qps, 1, i, 1, 0) == Reach(At(qps, 1, i - 1, 1)) && Extended(qps, 1, i, 1, 1) == qps[i][1]
  {
    hide Scan, RateLike, Bounded, At, MinReal, MaxReal, GapWith;
    FromNothing(qps, i);
    NothingCell(qps, i - 1);
    ReachExtended(At(qps, 1, i - 1, 1), qps[i][1]);
  }

  lemma OneStep(qps: Matrix, i: nat)
    requires Shaped(qps, 1) && Bounded(qps, 1) && RateLike(qps, 1) && 0 < i < |qps|
    ensures Reach(At(qps, 1, i, 1)) <= Reach(At(qps, 1, i - 1, 1)) && Reach(At(qps, 1, i, 1)) <= qps[i][1]
  {
    hide Scan, RateLike, Bounded, At, MinReal, MaxReal, GapWith, Extended, Reach;
    var c := At(qps, 1, i, 1);
    NothingCell(qps, i - 1);
    OneExtended(qps, i);
    ReachExtended(At(qps, 1, i - 1, 1), qps[i][1]);
    ScanIsBest(qps, 1, i, 1);
    AtStep(qps, 1, i, 1);
    assert c.dp <= Extended(qps, 1, i, 1, 0) && c.dp <= Extended(qps, 1, i, 1, 1);
    if c.alloc == 0 {
      assert Reach(c) == c.dp;
    } else {
      assert c.alloc == 1 && Reach(c) == c.dp;
    }
  }

  lemma {:induction false} SumOne(a: seq<nat>)
    requires Sum(a) == 1
    ensures exists t :: 0 <= t < |a| && a[t] == 1 && forall s :: 0 <= s < |a| && s != t ==> a[s] == 0
  {
    var n := |a| - 1;
    if a[n] == 1 {
      SumZero(a[..n]);
      assert forall s :: 0 <= s < n ==> a[..n][s] == a[s];
    } else {
      SumOne(a[..n]);
      var t :| 0 <= t < n && a[..n][t] == 1 && forall s :: 0 <= s < n && s != t ==> a[..n][s] == 0;
      assert forall s :: 0 <= s < n ==> a[..n][s] == a[s];
      assert a[t] == 1;
    }
  }

  /** The gap of an allocation of one resource is at least the rate of the job that gets it. */
  lemma OneGap(qps: Matrix, a: seq<nat>, g: real) returns (t: nat)
    requires Shaped(qps, 1) && (forall i :: 0 <= i < |qps| ==> qps[i][0] == 0.0) && |qps| > 1
    requires Complete(qps, 1, a) && IsGap(Rates(qps, 1, a), g)
    ensures t < |qps| && qps[t][1] <= g
  {
    SumOne(a);
    t :| 0 <= t < |a| && a[t] == 1 && forall s :: 0 <= s < |a| && s != t ==> a[s] == 0;
    var s := if t == 0 then 1 else 0;
    var vs := Rates(qps, 1, a);
    assert vs[t] == qps[t][1] && vs[s] == 0.0;
    assert Difference(vs, t, s) <= g;
  }

  lemma OptimalForOne(qps: Matrix, a: seq<nat>, g: real)
    requires Shaped(qps, 1) && Bounded(qps, 1) && RateLike(qps, 1) && |qps| > 1
    requires Complete(qps, 1, a) && IsGap(Rates(qps, 1, a), g)
    ensures At(qps, 1, |qps| - 1, 1).dp <= g
  {
    hide Bounded, At, Complete, IsGap;
    var t := OneGap(qps, a, g);
    OneReach(qps, |qps| - 1, t);
  }

  /** On rates that start at nothing and never fall, the allocator minimises the gap with at most two jobs or at
      most one resource. */
  lemma OptimalOnRates(qps: Matrix, m: nat)
    requires Shaped(qps, m) && Bounded(qps, m) && RateLike(qps, m) && (|qps| <= 2 || m <= 1)
    ensures Optimal(qps, m)
  {
    hide Bounded, RateLike;
    if |qps| <= 2 || m == 0 {
      OptimalWhenSmall(qps, m);
    } else {
      forall a, g | Complete(qps, m, a) && IsGap(Rates(qps, m, a), g)
        ensures At(qps, m, |qps| - 1, m).dp <= g
      {
        OptimalForOne(qps, a, g);
      }
    }
  }

  // ---- Three jobs and two resources ----

  /** Jobs that are half done and mislead the table: the second, sharing with the first, comes closest to it, but
      the others, for whom nothing is left, would have been closer to the first one alone. */
  function HalfDone(n: nat): (jobs: seq<JobStats>)
    ensures |jobs| == n && forall i :: 0 <= i < n ==> Running(jobs[i]) && jobs[i] == HalfDoneJob(i)
  {
    seq(n, i requires 0 <= i => HalfDoneJob(i))
  }

  function HalfDoneJob(i: nat): (j: JobStats)
    ensures Running(j) && 2 * j.completed == j.total
  {
    if i == 0 then JobStats(2, 1, 2.0) else if i == 1 then JobStats(2, 1, 1.0) else JobStats(2000, 1000, 1.0)
  }

  lemma HalfDoneRates(i: nat, x: nat)
    ensures x == 0 ==> ExpectedQPS(HalfDoneJob(i), x) == 0.0
    ensures i == 0 && x > 0 ==> 0.5 <= ExpectedQPS(HalfDoneJob(i), x) < 1.0
    ensures i == 0 && x > 1 ==> ExpectedQPS(HalfDoneJob(i), x) > 0.6
    ensures i == 1 && x > 0 ==> 1.0 <= ExpectedQPS(HalfDoneJob(i), x) < 2.0
    ensures i == 1 && x == 1 ==> ExpectedQPS(HalfDoneJob(i), x) == 1.0
    ensures i > 1 && x > 0 ==> 1000.0 <= ExpectedQPS(HalfDoneJob(i), x) < 2000.0
  {
    if x > 0 {
      var left := if i == 0 then 2.0 else 1.0;
      var j := HalfDoneJob(i);
      assert TimeLeft(j) == left;
      var r := x as real;
      Shrinks(left, 1.0, r);
      if x > 1 {
        Shrinks(left, 2.0, r);
      }
      assert left / r > 0.0 by {
        Quotient(left, r, 0.0);
      }
      var d := j.elapsed + left / r;
      assert ExpectedQPS(j, x) == j.total as real / d;
      Quotient(2.0, d, 0.5);
      Quotient(2.0, d, 0.6);
      Quotient(2.0, d, 1.0);
      Quotient(2.0, d, 2.0);
      Quotient(2000.0, d, 1000.0);
      Quotient(2000.0, d, 2000.0);
    }
  }

  lemma HalfDoneBounded(n: nat, m: nat)
    requires n > 0
    ensures Bounded(QPSOf(HalfDone(n), m), m)
  {
    var qps := QPSOf(HalfDone(n), m);
    hide ExpectedQPS;
    forall i, x | 0 <= i < n && 0 <= x <= m
      ensures 0.0 <= qps[i][x] < 0.0 + SENTINEL
    {
      HalfDoneRates(i, x);
    }
    assert Above(qps, m, 0.0);
  }

  lemma ExtendedFirst(qps: Matrix, m: nat, x: nat)
    requires Shaped(qps, m) && |qps| > 1 && x <= m
    ensures Extended(qps, m, 1, m, x) == Abs(qps[1][x] - qps[0][m - x])
  {
    hide Scan;
    assert At(qps, m, 0, m - x) == Cell(0.0, qps[0][m - x], qps[0][m - x], m - x);
  }

  /** The second job never goes without among the first two. */
  lemma SecondShares(n: nat, m: nat)
    requires n > 2 && m > 1
    ensures At(QPSOf(HalfDone(n), m), m, 1, m).alloc > 0
  {
    hide Scan, Bounded, ExpectedQPS, At, Extended;
    var qps := QPSOf(HalfDone(n), m);
    HalfDoneBounded(n, m);
    ScanIsBest(qps, m, 1, m);
    HalfDoneRates(0, m);
    HalfDoneRates(1, 0);
    HalfDoneRates(0, m - 1);
    HalfDoneRates(1, 1);
    ExtendedFirst(qps, m, 0);
    ExtendedFirst(qps, m, 1);
    assert At(qps, m, 1, m).dp <= Extended(qps, m, 1, m, 1);
  }

  lemma {:induction false} SomebodyElse(n: nat, m: nat, i: nat)
    requires n > 2 && m > 1 && 0 < i < n
    ensures exists t :: 0 < t <= i && Rebuild(QPSOf(HalfDone(n), m), m, i, m)[t] > 0
  {
    hide At, QPSOf, HalfDone;
    var qps := QPSOf(HalfDone(n), m);
    var a, share := Rebuild(qps, m, i, m), At(qps, m, i, m).alloc;
    if i == 1 {
      SecondShares(n, m);
    }
    if share > 0 {
      assert a[i] > 0;
    } else {
      SomebodyElse(n, m, i - 1);
      var t :| 0 < t <= i - 1 && Rebuild(qps, m, i - 1, m)[t] > 0;
      assert a[t] > 0;
    }
  }

  function AllToFirst(n: nat, m: nat): (a: seq<nat>)
    requires n > 0
    ensures |a| == n && a[0] == m && forall i :: 1 <= i < n ==> a[i] == 0
  {
    seq(n, i => if i == 0 then m else 0)
  }

  lemma {:induction false} AllToFirstSums(n: nat, m: nat, k: nat)
    requires 0 < k <= n
    ensures Sum(AllToFirst(n, m)[..k]) == m
  {
    var a := AllToFirst(n, m);
    PrefixSum(a, k - 1);
    if k > 1 {
      AllToFirstSums(n, m, k - 1);
    }
  }

  lemma AllToFirstGap(n: nat, m: nat) returns (g: real)
    requires n > 2 && m > 1
    ensures var qps := QPSOf(HalfDone(n), m);
            Complete(qps, m, AllToFirst(n, m)) && IsGap(Rates(qps, m, AllToFirst(n, m)), g) && g < 1.0
  {
    var qps, a := QPSOf(HalfDone(n), m), AllToFirst(n, m);
    hide ExpectedQPS;
    AllToFirstSums(n, m, n);
    assert a[..n] == a;
    var vs := Rates(qps, m, a);
    g := vs[0];
    forall i | 0 <= i < n
      ensures if i == 0 then 0.5 <= vs[i] < 1.0 else vs[i] == 0.0
    {
      HalfDoneRates(i, a[i]);
    }
    assert Difference(vs, 0, 1) == g;
  }

  lemma FastGap(n: nat, m: nat, a: seq<nat>, t: nat, g: real)
    requires n > 2 && 0 < t < n && Complete(QPSOf(HalfDone(n), m), m, a) && a[t] > 0
    requires IsGap(Rates(QPSOf(HalfDone(n), m), m, a), g)
    ensures g >= 1.0
  {
    hide ExpectedQPS;
    var vs := Rates(QPSOf(HalfDone(n), m), m, a);
    HalfDoneRates(0, a[0]);
    HalfDoneRates(1, a[1]);
    HalfDoneRates(2, a[2]);
    HalfDoneRates(t, a[t]);
    assert Difference(vs, t, 0) <= g && Difference(vs, t, 2) <= g && Difference(vs, 2, 0) <= g;
  }

  lemma Beaten(qps: Matrix, m: nat, a: seq<nat>, g: real)
    requires Shaped(qps, m) && Complete(qps, m, a) && IsGap(Rates(qps, m, a), g) && g < At(qps, m, |qps| - 1, m).dp
    ensures !Optimal(qps, m)
  {
  }

  /** For three or more jobs and two or more resources there are jobs on which the allocator misses the minimum. */
  lemma HalfDoneNotOptimal(n: nat, m: nat)
    requires n > 2 && m > 1
    ensures !Optimal(QPSOf(HalfDone(n), m), m)
  {
    hide At, Rebuild, HalfDone, QPSOf, Bounded, IsGap, Complete, Optimal, ExpectedQPS;
    var qps := QPSOf(HalfDone(n), m);
    HalfDoneBounded(n, m);
    SomebodyElse(n, m, n - 1);
    ResultIsComplete(qps, m);
    var a := Rebuild(qps, m, n - 1, m);
    var t :| 0 < t <= n - 1 && a[t] > 0;
    FastGap(n, m, a, t, At(qps, m, n - 1, m).dp);
    var g := AllToFirstGap(n, m);
    Beaten(qps, m, AllToFirst(n, m), g);
  }

  /** The documented minimisation holds for all jobs of a number, and for all rates of that shape, exactly when
      there are at most two jobs or at most one resource. */
  lemma OptimalExactly(n: nat, m: nat)
    requires n > 0
    ensures (forall jobs: seq<JobStats> :: |jobs| == n && AllRunning(jobs) && Bounded(QPSOf(jobs, m), m) ==>
               Optimal(QPSOf(jobs, m), m))
       <==> n <= 2 || m <= 1
    ensures (forall qps: Matrix :: |qps| == n && Shaped(qps, m) && Bounded(qps, m) && RateLike(qps, m) ==>
                   Optimal(qps, m))
       <==> n <= 2 || m <= 1
  {
    hide Optimal, Bounded, RateLike, ExpectedQPS;
    if n <= 2 || m <= 1 {
      forall qps: Matrix | |qps| == n && Shaped(qps, m) && Bounded(qps, m) && RateLike(qps, m)
        ensures Optimal(qps, m)
      {
        OptimalOnRates(qps, m);
      }
      forall jobs: seq<JobStats> | |jobs| == n && AllRunning(jobs) && Bounded(QPSOf(jobs, m), m)
        ensures Optimal(QPSOf(jobs, m), m)
      {
        JobsAreRateLike(jobs, m);
      }
    } else {
      HalfDoneBounded(n, m);
      HalfDoneNotOptimal(n, m);
      JobsAreRateLike(HalfDone(n), m);
    }
  }
}
