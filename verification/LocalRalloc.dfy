/** The local fair-time allocator of ralloc/ralloc.go: every job gets its rounded share of the resources, in
    order, while they last. */
module LocalRalloc {
  import opened Api

  function Total(times: seq<real>): real {
    if times == [] then 0.0 else Total(times[..|times| - 1]) + times[|times| - 1]
  }

  /** Times the division is defined for: none negative and, unless there is no job, not all zero. */
  ghost predicate Proper(times: seq<real>) {
    && (forall i :: 0 <= i < |times| ==> times[i] >= 0.0)
    && (times != [] ==> Total(times) > 0.0)
  }

  /** Rounding half away from zero, for shares, which are never negative. */
  function Round(x: real): (r: int)
    ensures x - 0.5 < r as real <= x + 0.5
  {
    (x + 0.5).Floor
  }

  /** The fair share of job i. */
  function Share(times: seq<real>, resources: nat, i: nat): real
    requires i < |times| && Total(times) > 0.0
  {
    Portion(resources as real, times[i], Total(times))
  }

  function Portion(r: real, time: real, total: real): real
    requires total > 0.0
  {
    r * time / total
  }

  /** Shares are as the times are: in proportion, and together all resources. */
  lemma ShareProportional(times: seq<real>, resources: nat, i: nat, j: nat)
    requires i < |times| && j < |times| && Total(times) > 0.0
    ensures Share(times, resources, i) * times[j] == Share(times, resources, j) * times[i]
    ensures Share(times, resources, i) * Total(times) == resources as real * times[i]
  {
    hide Portion, Total;
    var r, total := resources as real, Total(times);
    var s, s' := Share(times, resources, i), Share(times, resources, j);
    PortionTimes(r, times[i], total);
    PortionTimes(r, times[j], total);
    hide Share;
    Crosswise(s, s', times[i], times[j], r, total);
  }

  lemma PortionTimes(r: real, time: real, total: real)
    requires total > 0.0
    ensures Portion(r, time, total) * total == r * time
  {
    var x := r * time;
    assert x / total * total == x;
  }

  lemma Crosswise(s: real, s': real, t: real, t': real, r: real, total: real)
    requires total > 0.0 && s * total == r * t && s' * total == r * t'
    ensures s * t' == s' * t
  {
    assert s * t' * total == (s * total) * t';
    assert s' * t * total == (s' * total) * t;
    assert (s * t' - s' * t) * total == 0.0 by {
      assert (r * t) * t' == (r * t') * t;
    }
  }

  lemma RoundedShareNatural(times: seq<real>, resources: nat, i: nat)
    requires Proper(times) && i < |times|
    ensures Share(times, resources, i) >= 0.0 && Round(Share(times, resources, i)) >= 0
  {
    Nonnegative(resources as real, times[i], Total(times));
  }

  lemma Nonnegative(x: real, y: real, z: real)
    requires x >= 0.0 && y >= 0.0 && z > 0.0
    ensures Portion(x, y, z) >= 0.0
  {
    assert x * y >= 0.0;
  }

  /** The rounded shares of the first k jobs. */
  ghost function Wanted(times: seq<real>, resources: nat, k: nat): (w: seq<nat>)
    requires Proper(times) && k <= |times|
    ensures |w| == k
    ensures forall i :: 0 <= i < k ==> w[i] == Round(Share(times, resources, i))
  {
    if k == 0 then []
    else
      RoundedShareNatural(times, resources, k - 1);
      Wanted(times, resources, k - 1) + [Round(Share(times, resources, k - 1))]
  }

  // ---- What is promised ----

  /** Job i is clipped: it gets less than its rounded share. */
  ghost predicate Clipped(times: seq<real>, resources: nat, a: seq<nat>, i: nat)
    requires Proper(times) && i < |times| == |a|
  {
    a[i] < Round(Share(times, resources, i))
  }

  /** Handing out in order: each job gets its wish, or whatever is left. */
  ghost predicate HandedOut(wanted: seq<nat>, resources: nat, a: seq<nat>) {
    && |a| == |wanted|
    && forall i :: 0 <= i < |a| ==>
         a[i] == if Sum(wanted[..i]) + wanted[i] <= resources then wanted[i]
                 else if Sum(wanted[..i]) <= resources then resources - Sum(wanted[..i])
                 else 0
  }

  lemma {:induction false} PrefixBelow(w: seq<nat>, i: nat, k: nat)
    requires i <= k <= |w|
    ensures Sum(w[..i]) <= Sum(w[..k])
  {
    if i < k {
      PrefixBelow(w, i, k - 1);
      PrefixSum(w, k - 1);
    }
  }

  /** What is handed out to the first k jobs is what they want, up to the resources. */
  lemma {:induction false} HandedOutSum(wanted: seq<nat>, resources: nat, a: seq<nat>, k: nat)
    requires HandedOut(wanted, resources, a) && k <= |a|
    ensures Sum(a[..k]) == if Sum(wanted[..k]) <= resources then Sum(wanted[..k]) else resources
  {
    if k > 0 {
      HandedOutSum(wanted, resources, a, k - 1);
      PrefixSum(wanted, k - 1);
      PrefixSum(a, k - 1);
    }
  }

  lemma ClippedExhausts(wanted: seq<nat>, resources: nat, a: seq<nat>, i: nat)
    requires HandedOut(wanted, resources, a) && i < |a| && a[i] < wanted[i]
    ensures Sum(wanted[..i]) + wanted[i] > resources && Sum(wanted) > resources
  {
    hide Sum;
    PrefixSum(wanted, i);
    PrefixBelow(wanted, i + 1, |wanted|);
    assert wanted[..|wanted|] == wanted;
  }

  /** Each share is below its rounding plus one half, so the rounded shares nearly exhaust the resources. */
  lemma {:induction false} WantedNearTotal(times: seq<real>, resources: nat, k: nat)
    requires Proper(times) && 0 < k <= |times|
    ensures 2.0 * Portion(resources as real, Total(times[..k]), Total(times))
          < 2.0 * Sum(Wanted(times, resources, k)) as real + k as real
  {
    hide Portion, Round;
    var t, w := Total(times), Wanted(times, resources, k);
    assert times[..k][..k - 1] == times[..k - 1];
    assert w[..k - 1] == Wanted(times, resources, k - 1);
    SplitShare(resources as real, Total(times[..k - 1]), times[k - 1], t);
    if k == 1 {
      assert Total(times[..0]) == 0.0;
    } else {
      WantedNearTotal(times, resources, k - 1);
    }
  }

  lemma SplitShare(r: real, x: real, y: real, t: real)
    requires t > 0.0
    ensures Portion(r, x + y, t) == Portion(r, x, t) + Portion(r, y, t)
    ensures Portion(r, 0.0, t) == 0.0
  {
  }

  lemma WholeShare(r: real, t: real)
    requires t > 0.0
    ensures Portion(r, t, t) == r
  {
  }

  lemma WantedTotal(times: seq<real>, resources: nat)
    requires Proper(times) && times != []
    ensures 2 * resources < 2 * Sum(Wanted(times, resources, |times|)) + |times|
  {
    hide Portion, Round;
    WantedNearTotal(times, resources, |times|);
    assert times[..|times|] == times;
    WholeShare(resources as real, Total(times));
  }

  /** The allocator's promises: no job above its rounded share, never more than the resources, less than half a
      resource per job unused, and nothing unused once a job was clipped. */
  lemma LocalGuarantee(times: seq<real>, resources: nat, a: seq<nat>)
    requires Proper(times) && HandedOut(Wanted(times, resources, |times|), resources, a)
    ensures forall i :: 0 <= i < |a| ==> a[i] <= Round(Share(times, resources, i))
    ensures Sum(a) <= resources
    ensures times != [] ==> 2 * (resources - Sum(a)) < |times|
    ensures (exists i :: 0 <= i < |a| && Clipped(times, resources, a, i)) ==> Sum(a) == resources
    ensures Sum(a) == resources <==> Sum(Wanted(times, resources, |times|)) >= resources
  {
    hide Portion, Round, Total, Sum;
    var w := Wanted(times, resources, |times|);
    HandedOutSum(w, resources, a, |a|);
    assert a[..|a|] == a && w[..|w|] == w;
    if times != [] {
      WantedTotal(times, resources);
    }
    forall i | 0 <= i < |a| && Clipped(times, resources, a, i)
      ensures Sum(w) >= resources
    {
      ClippedExhausts(w, resources, a, i);
    }
  }

  lemma ShareMonotone(times: seq<real>, resources: nat, i: nat, j: nat)
    requires Proper(times) && i < |times| && j < |times| && times[i] <= times[j]
    ensures Share(times, resources, i) <= Share(times, resources, j)
  {
    hide Portion;
    var t := Total(times);
    SplitShare(resources as real, times[i], times[j] - times[i], t);
    Nonnegative(resources as real, times[j] - times[i], t);
  }

  /** Fairness: a job whose queries take no longer than those of an unclipped job gets no more than it. */
  lemma SlowerGetsMore(times: seq<real>, resources: nat, a: seq<nat>, i: nat, j: nat)
    requires Proper(times) && HandedOut(Wanted(times, resources, |times|), resources, a)
    requires i < |a| && j < |a| && times[i] <= times[j] && !Clipped(times, resources, a, j)
    ensures a[i] <= a[j]
  {
    ShareMonotone(times, resources, i, j);
    hide Share;
    LocalGuarantee(times, resources, a);
  }

  // ---- The program ----

  method LocalFairTimeRalloc(times: seq<real>, resources: nat) returns (alloc: seq<nat>)
    requires Proper(times)
    ensures HandedOut(Wanted(times, resources, |times|), resources, alloc)
    ensures |alloc| == |times| && Sum(alloc) <= resources
    ensures times != [] ==> 2 * (resources - Sum(alloc)) < |times|
  {
    var totalTime := 0.0;
    for i := 0 to |times|
      invariant totalTime == Total(times[..i])
    {
      assert times[..i + 1][..i] == times[..i];
      totalTime := totalTime + times[i];
    }
    assert times[..|times|] == times;
    ghost var w := Wanted(times, resources, |times|);
    var left := resources;
    alloc := [];
    hide Round, Portion, Total, HandedOut, Sum;
    for i := 0 to |times|
      invariant HandedOut(w[..i], resources, alloc)
      invariant left == if Sum(w[..i]) <= resources then resources - Sum(w[..i]) else 0
    {
      assert w[i] == Round(Share(times, resources, i));
      PrefixSum(w, i);
      var rounded := Round(Portion(resources as real, times[i], totalTime));
      var actual := if rounded < left then rounded else left;
      HandOutMore(w, resources, alloc, i, actual);
      alloc := alloc + [actual];
      left := left - actual;
    }
    assert w[..|w|] == w;
    LocalGuarantee(times, resources, alloc);
  }

  lemma HandOutMore(w: seq<nat>, resources: nat, a: seq<nat>, i: nat, actual: nat)
    requires i < |w| && HandedOut(w[..i], resources, a)
    requires actual == if Sum(w[..i]) + w[i] <= resources then w[i]
                       else if Sum(w[..i]) <= resources then resources - Sum(w[..i])
                       else 0
    ensures HandedOut(w[..i + 1], resources, a + [actual])
  {
    var u, b := w[..i + 1], a + [actual];
    forall t | 0 <= t <= i
      ensures b[t] == if Sum(u[..t]) + u[t] <= resources then u[t]
                      else if Sum(u[..t]) <= resources then resources - Sum(u[..t])
                      else 0
    {
      assert u[..t] == w[..t] && (t < i ==> w[..i][..t] == w[..t] && w[..i][t] == w[t]);
    }
  }
}
