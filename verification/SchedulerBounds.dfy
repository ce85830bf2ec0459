/**
  How good the plans are. Graham's bounds for list scheduling and for longest-first list scheduling,
  against every assignment of the same tasks to the same cores.
 */
module SchedulerBounds {
  import opened Scheduler

  // ---------------------------------------------------------------- sums of loads

  function SumLoads(w: seq<nat>, asg: seq<int>, cores: seq<int>): nat
    requires |w| == |asg|
  {
    if |cores| == 0 then 0
    else SumLoads(w, asg, cores[..|cores| - 1]) + Load(w, asg, cores[|cores| - 1])
  }

  lemma {:induction false} SumLoadsStep(w: seq<nat>, asg: seq<int>, cores: seq<int>)
    requires |w| == |asg| > 0 && Distinct(cores)
    ensures SumLoads(w, asg, cores) ==
            SumLoads(w[..|w| - 1], asg[..|w| - 1], cores) +
            if asg[|w| - 1] in cores then w[|w| - 1] else 0
  {
    if |cores| > 0 {
      SumLoadsStep(w, asg, cores[..|cores| - 1]);
      assert cores == cores[..|cores| - 1] + [cores[|cores| - 1]];
    }
  }

  /** Nothing is lost: the loads of the cores add up to all the work. */
  lemma {:induction false} SumLoadsIsTotal(w: seq<nat>, asg: seq<int>, cores: seq<int>)
    requires AssignsTo(asg, |w|, cores) && Distinct(cores)
    ensures SumLoads(w, asg, cores) == Total(w)
  {
    if |w| > 0 {
      SumLoadsStep(w, asg, cores);
      SumLoadsIsTotal(w[..|w| - 1], asg[..|w| - 1], cores);
    } else {
      NoWorkNoLoad(w, asg, cores);
    }
  }

  lemma {:induction false} NoWorkNoLoad(w: seq<nat>, asg: seq<int>, cores: seq<int>)
    requires |w| == |asg| == 0
    ensures SumLoads(w, asg, cores) == 0
  {
    if |cores| > 0 { NoWorkNoLoad(w, asg, cores[..|cores| - 1]); }
  }

  /** `m * x` as m additions, which keeps products out of the proofs that only carry them along. */
  function Times(m: nat, x: nat): nat {
    if m == 0 then 0 else Times(m - 1, x) + x
  }

  lemma {:induction false} TimesIsProduct(m: nat, x: nat)
    ensures Times(m, x) == m * x
  {
    if m > 0 {
      TimesIsProduct(m - 1, x);
      assert m * x == (m - 1) * x + x;
    }
  }

  lemma {:induction false} SumLoadsBetween(w: seq<nat>, asg: seq<int>, cores: seq<int>, low: nat, high: nat)
    requires |w| == |asg|
    requires forall c :: c in cores ==> low <= Load(w, asg, c) <= high
    ensures Times(|cores|, low) <= SumLoads(w, asg, cores) <= Times(|cores|, high)
  {
    if |cores| > 0 {
      var last := cores[|cores| - 1];
      assert last in cores;
      SumLoadsBetween(w, asg, cores[..|cores| - 1], low, high);
    }
  }

  /** Pigeonhole: when the work is less than `bound` on every core would be, some core is below it. */
  lemma LightCore(w: seq<nat>, asg: seq<int>, cores: seq<int>, bound: nat) returns (light: int)
    requires AssignsTo(asg, |w|, cores) && Distinct(cores)
    requires Total(w) < Times(|cores|, bound)
    ensures light in cores && Load(w, asg, light) < bound
  {
    SumLoadsIsTotal(w, asg, cores);
    var top := Makespan(w, asg, cores);
    if forall c :: c in cores ==> bound <= Load(w, asg, c) {
      SumLoadsBetween(w, asg, cores, bound, bound + top);
      assert false;
    }
    light :| light in cores && Load(w, asg, light) < bound;
  }

  lemma {:induction false} LoadGrows(w: seq<nat>, asg: seq<int>, c: int, k: nat)
    requires |w| == |asg| && k <= |w|
    ensures Load(w[..k], asg[..k], c) <= Load(w, asg, c)
    decreases |w|
  {
    if k < |w| {
      LoadGrows(w[..|w| - 1], asg[..|w| - 1], c, k);
      assert w[..|w| - 1][..k] == w[..k] && asg[..|w| - 1][..k] == asg[..k];
    } else {
      assert w[..k] == w && asg[..k] == asg;
    }
  }

  lemma {:induction false} LoadCoversJob(w: seq<nat>, asg: seq<int>, i: nat)
    requires |w| == |asg| && i < |w|
    ensures w[i] <= Load(w, asg, asg[i])
  {
    assert w[..i + 1][..i] == w[..i] && asg[..i + 1][..i] == asg[..i];
    LoadGrows(w, asg, asg[i], i + 1);
  }

  /** A loaded core's load is the finish time of its last job. */
  lemma {:induction false} LastJob(w: seq<nat>, asg: seq<int>, c: int) returns (i: nat)
    requires |w| == |asg| && Load(w, asg, c) > 0
    ensures i < |w| && asg[i] == c
    ensures Load(w, asg, c) == Load(w[..i], asg[..i], c) + w[i]
  {
    if asg[|w| - 1] == c {
      i := |w| - 1;
    } else {
      i := LastJob(w[..|w| - 1], asg[..|w| - 1], c);
      assert w[..|w| - 1][..i] == w[..i] && asg[..|w| - 1][..i] == asg[..i];
    }
  }

  // ---------------------------------------------------------------- list scheduling in any order

  /** The lightest core carries at most the average. */
  lemma LightestBelowAverage(w: seq<nat>, before: seq<int>, core: int, cores: seq<int>)
    requires Distinct(cores) && AssignsTo(before, |w|, cores) && Lightest(w, before, core, cores)
    ensures Times(|cores|, Load(w, before, core)) <= Total(w)
  {
    if Times(|cores|, Load(w, before, core)) > Total(w) {
      var light := LightCore(w, before, cores, Load(w, before, core));
      assert false;
    }
  }

  lemma {:induction false} TotalSplits(w: seq<nat>, i: nat)
    requires i < |w|
    ensures Total(w[..i]) + w[i] <= Total(w)
  {
    if i + 1 < |w| {
      TotalSplits(w[..|w| - 1], i);
      assert w[..|w| - 1][..i] == w[..i];
    }
  }

  /** The finish time of any job placed last, in terms of the work before it. */
  lemma FinishBound(w: seq<nat>, before: seq<int>, core: int, cores: seq<int>, s: nat, finish: nat, total: nat, largest: nat)
    requires |cores| > 0 && Distinct(cores) && AssignsTo(before, |w|, cores)
    requires Lightest(w, before, core, cores)
    requires finish == Load(w, before, core) + s && Total(w) + s <= total && s <= largest
    ensures |cores| * finish <= total + (|cores| - 1) * largest
  {
    LightestBelowAverage(w, before, core, cores);
    ListArithmetic(|cores|, Load(w, before, core), s, finish, Total(w), total, largest);
  }

  lemma MulMonotone(m: nat, x: nat, y: nat)
    requires x <= y
    ensures m * x <= m * y
  {
  }

  lemma ListArithmetic(m: nat, start: nat, s: nat, finish: nat, before: nat, total: nat, largest: nat)
    requires m >= 1 && finish == start + s
    requires Times(m, start) <= before && before + s <= total && s <= largest
    ensures m * finish <= total + (m - 1) * largest
  {
    TimesIsProduct(m, start);
    MulMonotone(m - 1, s, largest);
    assert m * finish == m * start + s + (m - 1) * s;
  }

  /** Graham's bound for any order: m * makespan <= total + (m - 1) * largest. */
  lemma ListScheduleBound(w: seq<nat>, asg: seq<int>, cores: seq<int>, largest: nat)
    requires |cores| > 0 && Distinct(cores) && |asg| == |w| && LeastLoaded(w, asg, cores)
    requires forall i :: 0 <= i < |w| ==> w[i] <= largest
    ensures |cores| * Makespan(w, asg, cores) <= Total(w) + (|cores| - 1) * largest
  {
    var top := Makespan(w, asg, cores);
    if top > 0 {
      var i := CriticalJob(w, asg, cores);
      TotalSplits(w, i);
      FinishBound(w[..i], asg[..i], asg[i], cores, w[i], top, Total(w), largest);
    } else {
      MulMonotone(|cores| - 1, 0, largest);
    }
  }

  /** The job whose finish time is the makespan, with what least-loaded placement says about it. */
  lemma CriticalJob(w: seq<nat>, asg: seq<int>, cores: seq<int>) returns (i: nat)
    requires |asg| == |w| && LeastLoaded(w, asg, cores) && Makespan(w, asg, cores) > 0
    ensures i < |w| && Makespan(w, asg, cores) == Load(w[..i], asg[..i], asg[i]) + w[i]
    ensures Lightest(w[..i], asg[..i], asg[i], cores) && AssignsTo(asg[..i], i, cores)
  {
    var c :| c in cores && Load(w, asg, c) == Makespan(w, asg, cores);
    i := LastJob(w, asg, c);
    LeastLoadedAt(w, asg, cores, i);
    LeastLoadedAssigns(w, asg, cores);
  }

  /** At every moment the loads differ by at most the largest estimate placed so far. */
  lemma {:induction false} LoadsStayBalanced(
    w: seq<nat>, asg: seq<int>, cores: seq<int>, k: nat, largest: nat, c: int, d: int)
    requires |asg| == |w| && LeastLoaded(w, asg, cores) && k <= |w|
    requires forall i :: 0 <= i < k ==> w[i] <= largest
    requires c in cores && d in cores
    ensures Load(w[..k], asg[..k], c) <= Load(w[..k], asg[..k], d) + largest
  {
    if k > 0 {
      LoadsStayBalanced(w, asg, cores, k - 1, largest, c, d);
      assert w[..k][..k - 1] == w[..k - 1] && asg[..k][..k - 1] == asg[..k - 1];
      LeastLoadedAt(w, asg, cores, k - 1);
    }
  }

  // ---------------------------------------------------------------- pigeonhole weights

  /** Weight 2 for the first `b` jobs and 1 for the rest. */
  function Tiers(n: nat, b: nat): (u: seq<nat>)
    ensures |u| == n
  {
    seq(n, i => if i < b then 2 else 1)
  }

  lemma {:induction false} TiersTotal(n: nat, b: nat)
    ensures Total(Tiers(n, b)) == n + if b < n then b else n
  {
    if n > 0 {
      assert Tiers(n, b)[..n - 1] == Tiers(n - 1, b);
      TiersTotal(n - 1, b);
    }
  }

  /** Jobs of at least `small`, the first `b` of at least `big`: what a core of given weight carries. */
  lemma {:induction false} TiersLower(w: seq<nat>, asg: seq<int>, b: nat, c: int, big: nat, small: nat)
    requires |w| == |asg| && small <= big
    requires forall i :: 0 <= i < |w| ==> w[i] >= small && (i < b ==> w[i] >= big)
    ensures var u, load := Load(Tiers(|w|, b), asg, c), Load(w, asg, c);
            && (u >= 1 ==> load >= small)
            && (u >= 2 ==> load >= big || load >= 2 * small)
            && (u >= 3 ==> load >= big + small || load >= 3 * small)
  {
    if |w| > 0 {
      assert Tiers(|w|, b)[..|w| - 1] == Tiers(|w| - 1, b);
      TiersLower(w[..|w| - 1], asg[..|w| - 1], b, c, big, small);
    }
  }

  /** A core of weight at most 1 carries at most one job, and none of the first `b`. */
  lemma {:induction false} TiersUpper(w: seq<nat>, asg: seq<int>, b: nat, c: int, most: nat)
    requires |w| == |asg|
    requires forall i :: b <= i < |w| ==> w[i] <= most
    ensures var u := Load(Tiers(|w|, b), asg, c);
            && (u == 0 ==> Load(w, asg, c) == 0)
            && (u <= 1 ==> Load(w, asg, c) <= most)
  {
    if |w| > 0 {
      assert Tiers(|w|, b)[..|w| - 1] == Tiers(|w| - 1, b);
      TiersUpper(w[..|w| - 1], asg[..|w| - 1], b, c, most);
    }
  }

  // ---------------------------------------------------------------- longest first

  ghost predicate Descending(w: seq<nat>) {
    forall i, j :: 0 <= i < j < |w| ==> w[i] >= w[j]
  }

  ghost predicate LoadsWithin(w: seq<nat>, asg: seq<int>, cores: seq<int>, top: nat)
    requires |w| == |asg|
  {
    forall c :: c in cores ==> Load(w, asg, c) <= top
  }

  /** If no core has room for three jobs, k jobs fit on the cores only when k <= 2m. */
  lemma AtMostTwoEach(w: seq<nat>, opt: seq<int>, cores: seq<int>, top: nat, small: nat)
    requires AssignsTo(opt, |w|, cores) && Distinct(cores) && LoadsWithin(w, opt, cores, top)
    requires forall i :: 0 <= i < |w| ==> w[i] >= small
    requires top < 3 * small
    ensures |w| <= 2 * |cores|
  {
    forall c | c in cores ensures 0 <= Load(Tiers(|w|, 0), opt, c) <= 2 {
      TiersLower(w, opt, 0, c, 2 * small, small);
    }
    SumLoadsBetween(Tiers(|w|, 0), opt, cores, 0, 2);
    SumLoadsIsTotal(Tiers(|w|, 0), opt, cores);
    TiersTotal(|w|, 0);
    TimesIsProduct(|cores|, 2);
  }

  /**
    With k = m + j jobs and no room for three on a core, one of the m - j + 1 largest shares its core
    in every assignment, so it and the smallest fit together.
   */
  lemma LargeJobShares(w: seq<nat>, opt: seq<int>, cores: seq<int>, top: nat)
    requires |cores| < |w| <= 2 * |cores|
    requires AssignsTo(opt, |w|, cores) && Distinct(cores) && LoadsWithin(w, opt, cores, top)
    requires Descending(w) && top < 3 * w[|w| - 1]
    ensures w[2 * |cores| - |w|] + w[|w| - 1] <= top
  {
    var m, k := |cores|, |w|;
    var b := 2 * m - k + 1;
    var big, small := w[b - 1], w[k - 1];
    if big + small > top {
      forall c | c in cores ensures 0 <= Load(Tiers(k, b), opt, c) <= 2 {
        TiersLower(w, opt, b, c, big, small);
      }
      SumLoadsBetween(Tiers(k, b), opt, cores, 0, 2);
      SumLoadsIsTotal(Tiers(k, b), opt, cores);
      TiersTotal(k, b);
      TimesIsProduct(m, 2);
      assert false;
    }
  }

  /** However the first k - 1 jobs are placed, some core carries no more than job m - j. */
  lemma SomeCoreIsLight(w: seq<nat>, asg: seq<int>, cores: seq<int>) returns (light: int)
    requires |cores| < |w| + 1 <= 2 * |cores|
    requires AssignsTo(asg, |w|, cores) && Distinct(cores) && Descending(w)
    ensures light in cores && Load(w, asg, light) <= w[2 * |cores| - |w| - 1]
  {
    var b := 2 * |cores| - |w| - 1;
    TiersTotal(|w|, b);
    TimesIsProduct(|cores|, 2);
    light := LightCore(Tiers(|w|, b), asg, cores, 2);
    TiersUpper(w, asg, b, light, w[b]);
  }

  lemma FewJobsLeaveAFreeCore(w: seq<nat>, asg: seq<int>, cores: seq<int>) returns (free: int)
    requires |w| < |cores|
    requires AssignsTo(asg, |w|, cores) && Distinct(cores)
    ensures free in cores && Load(w, asg, free) == 0
  {
    TiersTotal(|w|, 0);
    TimesIsProduct(|cores|, 1);
    free := LightCore(Tiers(|w|, 0), asg, cores, 1);
    forall i | 0 <= i < |w| ensures w[i] <= Total(w) { TotalSplits(w, i); }
    TiersUpper(w, asg, 0, free, Total(w));
  }

  /** Within 4/3 - 1/(3m), with the fractions cleared. */
  ghost predicate NearOptimal(m: nat, made: nat, best: nat) {
    3 * m * made <= (4 * m - 1) * best
  }

  lemma AverageWithin(w: seq<nat>, s: nat, opt: seq<int>, cores: seq<int>, top: nat)
    requires Distinct(cores) && AssignsTo(opt, |w| + 1, cores) && LoadsWithin(w + [s], opt, cores, top)
    ensures Total(w) + s <= Times(|cores|, top)
  {
    SumLoadsIsTotal(w + [s], opt, cores);
    SumLoadsBetween(w + [s], opt, cores, 0, top);
    assert (w + [s])[..|w|] == w;
  }

  /** A small job ends within the bound by averaging. */
  lemma SmallJobFinish(
    w: seq<nat>, before: seq<int>, core: int, cores: seq<int>, s: nat, finish: nat, opt: seq<int>, top: nat)
    requires |cores| > 0 && Distinct(cores) && AssignsTo(before, |w|, cores)
    requires Lightest(w, before, core, cores)
    requires AssignsTo(opt, |w| + 1, cores) && LoadsWithin(w + [s], opt, cores, top)
    requires finish == Load(w, before, core) + s && 3 * s <= top
    ensures NearOptimal(|cores|, finish, top)
  {
    LightestBelowAverage(w, before, core, cores);
    AverageWithin(w, s, opt, cores, top);
    SmallArithmetic(|cores|, Load(w, before, core), s, finish, Total(w), top);
  }

  lemma SmallArithmetic(m: nat, start: nat, s: nat, finish: nat, before: nat, top: nat)
    requires m >= 1 && finish == start + s
    requires Times(m, start) <= before && before + s <= Times(m, top) && 3 * s <= top
    ensures NearOptimal(m, finish, top)
  {
    TimesIsProduct(m, start);
    TimesIsProduct(m, top);
    MulMonotone(m - 1, 3 * s, top);
    Expand(m, start, s, finish, top);
  }

  lemma Expand(m: nat, start: nat, s: nat, finish: nat, top: nat)
    requires m >= 1 && finish == start + s
    ensures 3 * m * finish == 3 * (m * start) + 3 * s + (m - 1) * (3 * s)
    ensures (4 * m - 1) * top == 3 * (m * top) + (m - 1) * top
  {
  }

  /** A job larger than a third of the best makespan ends within the best makespan. */
  lemma LargeJobFinish(w: seq<nat>, before: seq<int>, core: int, cores: seq<int>, s: nat, opt: seq<int>, top: nat)
    requires |cores| > 0 && Distinct(cores) && AssignsTo(before, |w|, cores)
    requires Lightest(w, before, core, cores)
    requires AssignsTo(opt, |w| + 1, cores) && LoadsWithin(w + [s], opt, cores, top)
    requires Descending(w + [s]) && 3 * s > top
    ensures Load(w, before, core) + s <= top
  {
    var all := w + [s];
    var light: int;
    if |w| < |cores| {
      light := FewJobsLeaveAFreeCore(w, before, cores);
      LoadCoversJob(all, opt, |w|);
    } else {
      AtMostTwoEach(all, opt, cores, top, s);
      LargeJobShares(all, opt, cores, top);
      assert forall i, j :: 0 <= i < j < |w| ==> all[i] >= all[j];
      light := SomeCoreIsLight(w, before, cores);
    }
  }

  lemma AnyJobFinish(
    w: seq<nat>, before: seq<int>, core: int, cores: seq<int>, s: nat, finish: nat, opt: seq<int>, top: nat)
    requires |cores| > 0 && Distinct(cores) && AssignsTo(before, |w|, cores)
    requires Lightest(w, before, core, cores)
    requires AssignsTo(opt, |w| + 1, cores) && LoadsWithin(w + [s], opt, cores, top)
    requires Descending(w + [s]) && finish == Load(w, before, core) + s
    ensures NearOptimal(|cores|, finish, top)
  {
    if 3 * s <= top {
      SmallJobFinish(w, before, core, cores, s, finish, opt, top);
    } else {
      LargeJobFinish(w, before, core, cores, s, opt, top);
      LargeArithmetic(|cores|, finish, top);
    }
  }

  /** Graham's bound for longest-first order: 3m * makespan <= (4m - 1) * (any makespan). */
  lemma LongestFirstBound(w: seq<nat>, asg: seq<int>, opt: seq<int>, cores: seq<int>)
    requires |cores| > 0 && Distinct(cores) && |asg| == |w| && LeastLoaded(w, asg, cores)
    requires AssignsTo(opt, |w|, cores) && Descending(w)
    ensures NearOptimal(|cores|, Makespan(w, asg, cores), Makespan(w, opt, cores))
  {
    var made, top := Makespan(w, asg, cores), Makespan(w, opt, cores);
    if made > 0 {
      var i := CriticalJob(w, asg, cores);
      PrefixStaysWithin(w, opt, cores, i, top);
      AnyJobFinish(w[..i], asg[..i], asg[i], cores, w[i], made, opt[..i + 1], top);
    } else {
      LargeArithmetic(|cores|, 0, top);
    }
  }

  lemma PrefixStaysWithin(w: seq<nat>, opt: seq<int>, cores: seq<int>, i: nat, top: nat)
    requires AssignsTo(opt, |w|, cores) && LoadsWithin(w, opt, cores, top) && Descending(w) && i < |w|
    ensures AssignsTo(opt[..i + 1], i + 1, cores)
    ensures LoadsWithin(w[..i] + [w[i]], opt[..i + 1], cores, top) && Descending(w[..i] + [w[i]])
  {
    assert w[..i] + [w[i]] == w[..i + 1];
    forall c | c in cores ensures Load(w[..i + 1], opt[..i + 1], c) <= top { LoadGrows(w, opt, c, i + 1); }
  }

  lemma LargeArithmetic(m: nat, made: nat, top: nat)
    requires m >= 1 && made <= top
    ensures 3 * m * made <= (4 * m - 1) * top
  {
    assert 3 * m * made <= 3 * m * top;
    assert (4 * m - 1) * top == 3 * m * top + (m - 1) * top;
  }

  // ---------------------------------------------------------------- the plans

  lemma {:induction false} InsertCarriesLoads(sorted: seq<Task>, asg: seq<int>, task: Task, core: int, cores: seq<int>)
    returns (moved: seq<int>)
    requires AssignsTo(asg, |sorted|, cores) && core in cores
    ensures AssignsTo(moved, |sorted| + 1, cores)
    ensures forall c :: Load(Estimates(InsertLongestFirst(sorted, task)), moved, c) ==
                        Load(Estimates(sorted), asg, c) + if c == core then task.estimatedMs else 0
  {
    if |sorted| == 0 || sorted[|sorted| - 1].estimatedMs >= task.estimatedMs {
      moved := asg + [core];
      assert Estimates(sorted + [task]) == Estimates(sorted) + [task.estimatedMs as nat];
      forall c ensures Load(Estimates(sorted + [task]), moved, c) ==
                       Load(Estimates(sorted), asg, c) + if c == core then task.estimatedMs else 0
      {
        LoadSnoc(Estimates(sorted), asg, task.estimatedMs, core, c);
      }
    } else {
      var n := |sorted| - 1;
      var front := InsertCarriesLoads(sorted[..n], asg[..n], task, core, cores);
      var whole := InsertLongestFirst(sorted, task);
      moved := front + [asg[n]];
      assert Estimates(whole) == Estimates(InsertLongestFirst(sorted[..n], task)) + [sorted[n].estimatedMs as nat];
      assert Estimates(sorted)[..n] == Estimates(sorted[..n]);
      forall c ensures Load(Estimates(whole), moved, c) ==
                       Load(Estimates(sorted), asg, c) + if c == core then task.estimatedMs else 0
      {
        LoadSnoc(Estimates(InsertLongestFirst(sorted[..n], task)), front, sorted[n].estimatedMs, asg[n], c);
      }
    }
  }

  /** Any assignment of the submitted tasks is an assignment of the sorted ones with the same loads. */
  lemma {:induction false} SortCarriesLoads(tasks: seq<Task>, asg: seq<int>, cores: seq<int>) returns (moved: seq<int>)
    requires AssignsTo(asg, |tasks|, cores)
    ensures AssignsTo(moved, |tasks|, cores)
    ensures forall c :: Load(Estimates(ResourceAwarePlan(tasks)), moved, c) == Load(Estimates(tasks), asg, c)
  {
    if |tasks| == 0 {
      moved := asg;
    } else {
      var n := |tasks| - 1;
      var front := SortCarriesLoads(tasks[..n], asg[..n], cores);
      var core := asg[n];
      moved := InsertCarriesLoads(ResourceAwarePlan(tasks[..n]), front, tasks[n], core, cores);
      assert Estimates(tasks)[..n] == Estimates(tasks[..n]);
    }
  }

  lemma SameLoadsSameMakespan(w: seq<nat>, asg: seq<int>, v: seq<nat>, bsg: seq<int>, cores: seq<int>)
    requires |w| == |asg| && |v| == |bsg|
    requires forall c :: Load(w, asg, c) == Load(v, bsg, c)
    ensures Makespan(w, asg, cores) == Makespan(v, bsg, cores)
  {
    var a, b := Makespan(w, asg, cores), Makespan(v, bsg, cores);
    if a > 0 { var c :| c in cores && Load(w, asg, c) == a; assert Load(v, bsg, c) <= b; }
    if b > 0 { var c :| c in cores && Load(v, bsg, c) == b; assert Load(w, asg, c) <= a; }
  }

  lemma SortedNearOptimal(tasks: seq<Task>, asg: seq<int>, cores: seq<int>, other: seq<int>)
    requires |cores| > 0 && Distinct(cores) && |asg| == |tasks|
    requires LeastLoaded(Estimates(ResourceAwarePlan(tasks)), asg, cores)
    requires AssignsTo(other, |tasks|, cores)
    ensures NearOptimal(|cores|, Makespan(Estimates(ResourceAwarePlan(tasks)), asg, cores),
                        Makespan(Estimates(tasks), other, cores))
  {
    var sorted := ResourceAwarePlan(tasks);
    var moved := SortCarriesLoads(tasks, other, cores);
    SameLoadsSameMakespan(Estimates(sorted), moved, Estimates(tasks), other, cores);
    ResourceAwarePlanIsStableSort(tasks, 0);
    LongestFirstBound(Estimates(sorted), asg, moved, cores);
  }

  /**
    The RESOURCE_AWARE plan is within 4/3 - 1/(3m) of the makespan of ANY assignment of the
    submitted tasks to the same m cores.
   */
  lemma ResourceAwareNearOptimal(plan: SchedulePlan, tasks: seq<Task>, cores: seq<int>, other: seq<int>)
    requires UsableCores(cores) && PlanFor(plan, ResourceAware, tasks, cores)
    requires AssignsTo(other, |tasks|, cores)
    ensures 3 * |cores| * plan.makespanMs <= (4 * |cores| - 1) * Makespan(Estimates(tasks), other, cores)
  {
    SortedNearOptimal(tasks, CoresOf(plan.assignments), cores, other);
  }

  lemma PlanAssigns(plan: SchedulePlan, strategy: Strategy, tasks: seq<Task>, cores: seq<int>)
    requires PlanFor(plan, strategy, tasks, cores)
    ensures AssignsTo(CoresOf(plan.assignments), |tasks|, cores)
  {
    if strategy.FifoBaseline? {
      RoundRobinAssigns(CoresOf(plan.assignments), cores);
    } else {
      LeastLoadedAssigns(Estimates(plan.orderedTasks), CoresOf(plan.assignments), cores);
    }
  }

  lemma RoundRobinAssigns(asg: seq<int>, cores: seq<int>)
    requires RoundRobin(asg, cores)
    ensures AssignsTo(asg, |asg|, cores)
  {
    forall i | 0 <= i < |asg| ensures asg[i] in cores {
      var core := cores[i % |cores|];
      assert core in cores;
    }
  }

  /** Hence it never exceeds the FIFO plan for the same request by more than that factor. */
  lemma ResourceAwareAgainstFifo(plan: SchedulePlan, fifo: SchedulePlan, tasks: seq<Task>, cores: seq<int>)
    requires UsableCores(cores)
    requires PlanFor(plan, ResourceAware, tasks, cores) && PlanFor(fifo, FifoBaseline, tasks, cores)
    ensures 3 * |cores| * plan.makespanMs <= (4 * |cores| - 1) * fifo.makespanMs
  {
    RoundRobinAssigns(CoresOf(fifo.assignments), cores);
    ResourceAwareNearOptimal(plan, tasks, cores, CoresOf(fifo.assignments));
  }

  lemma ListedLoads(loads: map<int, nat>, tasks: seq<Task>, asg: seq<int>, cores: seq<int>)
    requires |asg| == |tasks| && LoadsMatch(loads, tasks, asg, cores)
    ensures forall c :: c in cores ==> loads[c] <= Makespan(Estimates(tasks), asg, cores)
  {
    assert Estimates(tasks)[..|tasks|] == Estimates(tasks);
  }

  /** No task and no time is lost, for either strategy: the loads add up to the total. */
  lemma PlanConservesWork(plan: SchedulePlan, strategy: Strategy, tasks: seq<Task>, cores: seq<int>)
    requires UsableCores(cores) && PlanFor(plan, strategy, tasks, cores)
    ensures AssignsTo(CoresOf(plan.assignments), |tasks|, cores)
    ensures SumLoads(Estimates(plan.orderedTasks), CoresOf(plan.assignments), cores) == plan.totalMs
    ensures forall c :: c in cores ==> plan.coreLoadsMs[c] <= plan.makespanMs
    ensures multiset(plan.orderedTasks) == multiset(tasks)
  {
    PlanAssigns(plan, strategy, tasks, cores);
    SumLoadsIsTotal(Estimates(plan.orderedTasks), CoresOf(plan.assignments), cores);
    ResourceAwarePlanIsStableSort(tasks, 0);
    ListedLoads(plan.coreLoadsMs, plan.orderedTasks, CoresOf(plan.assignments), cores);
  }

  /** Listing the same cores in another order changes no assignment of the RESOURCE_AWARE plan. */
  lemma {:induction false} LeastLoadedIsDeterministic(w: seq<nat>, a: seq<int>, b: seq<int>, cores: seq<int>, others: seq<int>)
    requires |a| == |b| && LeastLoaded(w, a, cores) && LeastLoaded(w, b, others)
    requires forall c :: c in cores <==> c in others
    ensures a == b
  {
    if |a| > 0 {
      var n := |a| - 1;
      LeastLoadedIsDeterministic(w, a[..n], b[..n], cores, others);
      assert a == a[..n] + [a[n]] && b == b[..n] + [b[n]];
    }
  }

  lemma CoreOrderDoesNotMatter(p: SchedulePlan, q: SchedulePlan, tasks: seq<Task>, cores: seq<int>, others: seq<int>)
    requires PlanFor(p, ResourceAware, tasks, cores) && PlanFor(q, ResourceAware, tasks, others)
    requires forall c :: c in cores <==> c in others
    ensures p.assignments == q.assignments
  {
    LeastLoadedIsDeterministic(
      Estimates(ResourceAwarePlan(tasks)), CoresOf(p.assignments), CoresOf(q.assignments), cores, others);
  }
}
