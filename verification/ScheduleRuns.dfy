/**
  Carrying out a plan: one worker per core takes its queue in order, all workers interleave, and the results are put
  into plan order at the end. A worker's queue is `OnCore`, which the executor's sort by position leaves as it is
  (`ScheduleExecution.ExecutorKeepsPlannedOrder`).
 */
module ScheduleRuns {
  import opened Scheduler
  import opened ScheduleExecution

  datatype Stage = Between | Running | Finished | Raised

  /** A worker of one core, which has completed the first `next` tasks of its queue. */
  datatype Worker = Worker(next: nat, stage: Stage)

  datatype Executed = Executed(taskName: string, coreId: int, queuePosition: nat, exitCode: int)

  /** The workers, the results and the counts reported as progress so far. */
  datatype Execution = Execution(workers: map<int, Worker>, results: seq<Executed>, completed: nat, reports: seq<nat>) {
    function With(core: int, worker: Worker): Execution { this.(workers := workers[core := worker]) }

    function Complete(core: int, a: Assignment, exitCode: int): Execution
      requires core in workers
    {
      Execution(workers[core := Worker(workers[core].next + 1, Between)],
                results + [Executed(a.taskName, core, a.queuePosition, exitCode)], completed + 1, reports + [completed + 1])
    }

    predicate Done(a: Assignment) { a.coreId in workers && a.queuePosition < workers[a.coreId].next }
  }

  // ---------------------------------------------------------------- steps

  ghost predicate Init(plan: seq<Assignment>, s: Execution) {
    && (forall c :: c in s.workers <==> OnCore(plan, c) != [])
    && (forall c <- s.workers :: s.workers[c] == Worker(0, Between))
    && s.results == [] && s.completed == 0 && s.reports == []
  }

  /** A worker sees a cancel request, starts its next task, ends, gives up inside a task, or completes it. */
  ghost predicate WorkerStep(plan: seq<Assignment>, s: Execution, t: Execution, core: int) {
    && core in s.workers
    && var w, queue := s.workers[core], OnCore(plan, core);
       match w.stage
       case Between =>
         if w.next < |queue| then t == s.With(core, w.(stage := Raised)) || t == s.With(core, w.(stage := Running))
         else t == s.With(core, w.(stage := Finished))
       case Running =>
         || t == s.With(core, w.(stage := Raised))
         || (w.next < |queue| && exists exitCode :: t == s.Complete(core, queue[w.next], exitCode))
       case _ => false
  }

  ghost predicate Step(plan: seq<Assignment>, s: Execution, t: Execution) {
    exists core :: WorkerStep(plan, s, t, core)
  }

  ghost predicate IsRun(plan: seq<Assignment>, run: seq<Execution>) {
    && |run| > 0 && Init(plan, run[0])
    && forall n :: 0 <= n < |run| - 1 ==> Step(plan, run[n], run[n + 1])
  }

  // ---------------------------------------------------------------- the final order

  /** The place of a task in the plan, as the executor's dictionary has it: the last one of that name. */
  function OrderOf(plan: seq<Assignment>, name: string): (i: nat)
    ensures i <= |plan|
  {
    if |plan| == 0 then 0
    else if plan[|plan| - 1].taskName == name then |plan| - 1
    else OrderOf(plan[..|plan| - 1], name)
  }

  function InsertByOrder(plan: seq<Assignment>, sorted: seq<Executed>, r: Executed): (s: seq<Executed>)
    ensures |s| == |sorted| + 1
  {
    if |sorted| == 0 || OrderOf(plan, sorted[|sorted| - 1].taskName) <= OrderOf(plan, r.taskName) then sorted + [r]
    else InsertByOrder(plan, sorted[..|sorted| - 1], r) + [sorted[|sorted| - 1]]
  }

  /** The results, sorted by the place of their tasks in the plan. */
  function InPlanOrder(plan: seq<Assignment>, results: seq<Executed>): (s: seq<Executed>)
    ensures |s| == |results|
  {
    if |results| == 0 then []
    else InsertByOrder(plan, InPlanOrder(plan, results[..|results| - 1]), results[|results| - 1])
  }

  // ---------------------------------------------------------------- what a plan gives the executor

  ghost predicate NamesDiffer(plan: seq<Assignment>) {
    forall i, j :: 0 <= i < j < |plan| ==> plan[i].taskName != plan[j].taskName
  }

  /** Names tell tasks apart, and a core's queue has its tasks at their positions. */
  ghost predicate WellPlaced(plan: seq<Assignment>) {
    && NamesDiffer(plan)
    && (forall a <- plan :: a.queuePosition < |OnCore(plan, a.coreId)| && OnCore(plan, a.coreId)[a.queuePosition] == a)
    && forall c, k :: 0 <= k < |OnCore(plan, c)| ==>
         var a := OnCore(plan, c)[k]; a in plan && a.coreId == c && a.queuePosition == k
  }

  lemma {:induction false} OnCoreMembers(plan: seq<Assignment>, core: int, a: Assignment)
    ensures a in OnCore(plan, core) <==> a in plan && a.coreId == core
  {
    if |plan| > 0 {
      OnCoreMembers(plan[..|plan| - 1], core, a);
      assert plan == plan[..|plan| - 1] + [plan[|plan| - 1]];
    }
  }

  lemma QueueIsPlaced(plan: seq<Assignment>, tasks: seq<Task>, core: int, k: nat)
    requires Timetable(tasks, plan) && k < |OnCore(plan, core)|
    ensures var a := OnCore(plan, core)[k]; a in plan && a.coreId == core && a.queuePosition == k
  {
    TimetableIsPacked(tasks, plan, core);
    OnCoreMembers(plan, core, OnCore(plan, core)[k]);
  }

  lemma TaskIsPlaced(plan: seq<Assignment>, tasks: seq<Task>, a: Assignment)
    requires Timetable(tasks, plan) && a in plan
    ensures a.queuePosition < |OnCore(plan, a.coreId)| && OnCore(plan, a.coreId)[a.queuePosition] == a
  {
    OnCoreMembers(plan, a.coreId, a);
    var k: nat :| k < |OnCore(plan, a.coreId)| && OnCore(plan, a.coreId)[k] == a;
    QueueIsPlaced(plan, tasks, a.coreId, k);
  }

  lemma NamesStayUnique(a: seq<Task>, b: seq<Task>)
    requires UniqueNames(a) && multiset(a) == multiset(b)
    ensures UniqueNames(b)
  {
    forall i, j | 0 <= i < j < |b| ensures b[i].name != b[j].name {
      assert b[i] in multiset(a) && b[j] in multiset(a);
      if b[i].name == b[j].name {
        var p, q :| 0 <= p < |a| && 0 <= q < |a| && a[p] == b[i] && a[q] == b[j];
        OnlyOnce(a, p);
        Twice(b, i, j);
      }
    }
  }

  lemma Twice(b: seq<Task>, i: nat, j: nat)
    requires i < j < |b|
    ensures b[i] == b[j] ==> multiset(b)[b[i]] >= 2
  {
    var front, back := b[..j], b[j..];
    assert b == front + back && front[i] == b[i] && back[0] == b[j];
    assert b[i] in multiset(front) && b[j] in multiset(back);
  }

  lemma OnlyOnce(a: seq<Task>, p: nat)
    requires UniqueNames(a) && p < |a|
    ensures multiset(a)[a[p]] == 1
  {
    assert a == a[..p] + [a[p]] + a[p + 1..];
    assert a[p] !in a[..p] && a[p] !in a[p + 1..];
  }

  lemma PlanIsWellPlaced(plan: SchedulePlan, strategy: Strategy, tasks: seq<Task>, cores: seq<int>)
    requires PlanFor(plan, strategy, tasks, cores) && Plannable(tasks)
    ensures WellPlaced(plan.assignments)
  {
    var ordered, placed := plan.orderedTasks, plan.assignments;
    PlanIsSorted(tasks);
    NamesStayUnique(tasks, ordered);
    forall i, j | 0 <= i < j < |placed| ensures placed[i].taskName != placed[j].taskName {
      assert placed[i] == Slot(ordered, CoresOf(placed), i) && placed[j] == Slot(ordered, CoresOf(placed), j);
    }
    forall a | a in placed { TaskIsPlaced(placed, ordered, a); }
    forall c, k | 0 <= k < |OnCore(placed, c)|
      ensures var a := OnCore(placed, c)[k]; a in placed && a.coreId == c && a.queuePosition == k
    {
      QueueIsPlaced(placed, ordered, c, k);
    }
  }

  // ---------------------------------------------------------------- the invariant

  /** The results of one core, in the order they came. */
  function ResultsOn(results: seq<Executed>, core: int): seq<Executed> {
    if |results| == 0 then []
    else ResultsOn(results[..|results| - 1], core) +
         if results[|results| - 1].coreId == core then [results[|results| - 1]] else []
  }

  predicate IsFor(r: Executed, a: Assignment) {
    r.taskName == a.taskName && r.coreId == a.coreId && r.queuePosition == a.queuePosition
  }

  /** Each core's results are those of the tasks it has completed, in queue order. */
  ghost predicate CoreInOrder(plan: seq<Assignment>, s: Execution, core: int)
    requires core in s.workers
  {
    var done, queue, w := ResultsOn(s.results, core), OnCore(plan, core), s.workers[core];
    && |done| == w.next <= |queue|
    && (w.stage.Running? ==> w.next < |queue|)
    && (w.stage.Finished? ==> w.next == |queue|)
    && forall k :: 0 <= k < w.next ==> IsFor(done[k], queue[k])
  }

  /** The result belongs to a planned task that its core has completed. */
  ghost predicate Planned(plan: seq<Assignment>, s: Execution, r: Executed) {
    var i := OrderOf(plan, r.taskName);
    i < |plan| && IsFor(r, plan[i]) && s.Done(plan[i])
  }

  ghost predicate Reported(s: Execution, a: Assignment) { exists r :: r in s.results && IsFor(r, a) }

  ghost predicate ResultsMatch(plan: seq<Assignment>, s: Execution) {
    && (forall r <- s.results :: Planned(plan, s, r))
    && (forall i :: 0 <= i < |plan| && s.Done(plan[i]) ==> Reported(s, plan[i]))
    && forall i, j :: 0 <= i < j < |s.results| ==> s.results[i].taskName != s.results[j].taskName
  }

  ghost predicate Counted(s: Execution) {
    s.completed == |s.results| == |s.reports| && forall k :: 0 <= k < |s.reports| ==> s.reports[k] == k + 1
  }

  ghost predicate Inv(plan: seq<Assignment>, s: Execution) {
    && (forall c :: c in s.workers <==> OnCore(plan, c) != [])
    && (forall c <- s.workers :: CoreInOrder(plan, s, c))
    && ResultsMatch(plan, s) && Counted(s)
  }

  lemma ResultsOnSnoc(results: seq<Executed>, last: Executed, core: int)
    ensures ResultsOn(results + [last], core) == ResultsOn(results, core) + if last.coreId == core then [last] else []
  {
    assert (results + [last])[..|results|] == results;
  }

  lemma CompleteKeepsOrder(plan: seq<Assignment>, s: Execution, core: int, exitCode: int, c: int)
    requires core in s.workers && s.workers[core].next < |OnCore(plan, core)|
    requires OnCore(plan, core)[s.workers[core].next].coreId == core
    requires c in s.workers && CoreInOrder(plan, s, c)
    ensures CoreInOrder(plan, s.Complete(core, OnCore(plan, core)[s.workers[core].next], exitCode), c)
  {
    hide ResultsOn, OnCore;
    var t := s.Complete(core, OnCore(plan, core)[s.workers[core].next], exitCode);
    ResultsOnSnoc(s.results, t.results[|s.results|], c);
  }

  /** Completing the next task of a queue makes that task done, and no other. */
  lemma CompleteDoesOne(plan: seq<Assignment>, s: Execution, core: int, exitCode: int) returns (n: nat)
    requires WellPlaced(plan) && core in s.workers && s.workers[core].next < |OnCore(plan, core)|
    ensures n < |plan| && plan[n] == OnCore(plan, core)[s.workers[core].next] && plan[n].coreId == core
    ensures !s.Done(plan[n])
    ensures var t := s.Complete(core, plan[n], exitCode);
            forall i :: 0 <= i < |plan| ==> (t.Done(plan[i]) <==> s.Done(plan[i]) || i == n)
  {
    var next := s.workers[core].next;
    var a := OnCore(plan, core)[next];
    assert a in plan && a.coreId == core && a.queuePosition == next;
    n :| n < |plan| && plan[n] == a;
    forall i | 0 <= i < |plan| && plan[i].coreId == core && plan[i].queuePosition == next ensures i == n {
      assert plan[i] in plan;
      assert plan[i] == a;
    }
  }

  lemma CompleteKeepsResults(plan: seq<Assignment>, s: Execution, core: int, exitCode: int)
    requires WellPlaced(plan) && core in s.workers && s.workers[core].next < |OnCore(plan, core)| && ResultsMatch(plan, s)
    ensures ResultsMatch(plan, s.Complete(core, OnCore(plan, core)[s.workers[core].next], exitCode))
  {
    var n := CompleteDoesOne(plan, s, core, exitCode);
    var t := s.Complete(core, plan[n], exitCode);
    var last := t.results[|s.results|];
    OrderOfPlanned(plan, n);
    ResultsStayPlanned(plan, s, t, last, n);
    forall i | 0 <= i < |plan| && t.Done(plan[i]) ensures Reported(t, plan[i]) {
      if i == n {
        assert last in t.results && IsFor(last, plan[n]);
      } else {
        var r :| r in s.results && IsFor(r, plan[i]);
        assert r in t.results;
      }
    }
  }

  lemma ResultsStayPlanned(plan: seq<Assignment>, s: Execution, t: Execution, last: Executed, n: nat)
    requires ResultsMatch(plan, s) && t.results == s.results + [last] && n < |plan| && IsFor(last, plan[n])
    requires OrderOf(plan, last.taskName) == n && !s.Done(plan[n])
    requires forall i :: 0 <= i < |plan| ==> (t.Done(plan[i]) <==> s.Done(plan[i]) || i == n)
    ensures forall r <- t.results :: Planned(plan, t, r)
    ensures forall i, j :: 0 <= i < j < |t.results| ==> t.results[i].taskName != t.results[j].taskName
  {
    forall r | r in t.results ensures Planned(plan, t, r) {
      assert r in s.results ==> Planned(plan, s, r);
    }
    forall i | 0 <= i < |s.results| ensures s.results[i].taskName != last.taskName {
      assert Planned(plan, s, s.results[i]);
    }
  }

  lemma OtherStepKeeps(plan: seq<Assignment>, s: Execution, core: int, w: Worker)
    requires Inv(plan, s) && core in s.workers && w.next == s.workers[core].next
    requires w.stage.Running? ==> w.next < |OnCore(plan, core)|
    requires w.stage.Finished? ==> w.next == |OnCore(plan, core)|
    ensures Inv(plan, s.With(core, w))
  {
    var t := s.With(core, w);
    forall a: Assignment ensures t.Done(a) <==> s.Done(a) {}
    forall c | c in t.workers ensures CoreInOrder(plan, t, c) { assert CoreInOrder(plan, s, c); }
    forall r | r in t.results ensures Planned(plan, t, r) { assert Planned(plan, s, r); }
    forall i | 0 <= i < |plan| && t.Done(plan[i]) ensures Reported(t, plan[i]) { assert Reported(s, plan[i]); }
  }

  lemma QueuedOnCore(plan: seq<Assignment>, core: int, k: nat)
    requires WellPlaced(plan) && k < |OnCore(plan, core)|
    ensures OnCore(plan, core)[k].coreId == core
  {
  }

  lemma CompleteKeeps(plan: seq<Assignment>, s: Execution, core: int, exitCode: int)
    requires WellPlaced(plan) && Inv(plan, s) && core in s.workers && s.workers[core].next < |OnCore(plan, core)|
    ensures Inv(plan, s.Complete(core, OnCore(plan, core)[s.workers[core].next], exitCode))
  {
    hide CoreInOrder, ResultsMatch, WellPlaced;
    QueuedOnCore(plan, core, s.workers[core].next);
    var t := s.Complete(core, OnCore(plan, core)[s.workers[core].next], exitCode);
    forall c | c in t.workers ensures CoreInOrder(plan, t, c) { CompleteKeepsOrder(plan, s, core, exitCode, c); }
    CompleteKeepsResults(plan, s, core, exitCode);
  }

  lemma StepKeepsInv(plan: seq<Assignment>, s: Execution, t: Execution)
    requires WellPlaced(plan) && Inv(plan, s) && Step(plan, s, t)
    ensures Inv(plan, t)
  {
    hide WellPlaced, ResultsMatch, Counted;
    var core :| WorkerStep(plan, s, t, core);
    var w := s.workers[core];
    assert CoreInOrder(plan, s, core);
    if exitCode :| w.next < |OnCore(plan, core)| && t == s.Complete(core, OnCore(plan, core)[w.next], exitCode) {
      CompleteKeeps(plan, s, core, exitCode);
    } else {
      OtherStepKeeps(plan, s, core, t.workers[core]);
    }
  }

  lemma {:induction false} RunKeepsInv(plan: seq<Assignment>, run: seq<Execution>, i: nat)
    requires WellPlaced(plan) && |run| > 0 && i < |run| && Init(plan, run[0])
    requires forall n :: 0 <= n < |run| - 1 ==> Step(plan, run[n], run[n + 1])
    ensures Inv(plan, run[i])
  {
    if i > 0 {
      RunKeepsInv(plan, run, i - 1);
      StepKeepsInv(plan, run[i - 1], run[i]);
    }
  }

  // ---------------------------------------------------------------- what holds of every run

  /** At every moment each core has completed a first part of its queue, in order, and the counter counts the results. */
  lemma CoresRunTheirQueues(plan: seq<Assignment>, run: seq<Execution>, i: nat, core: int)
    requires WellPlaced(plan) && IsRun(plan, run) && i < |run| && core in run[i].workers
    ensures CoreInOrder(plan, run[i], core) && Counted(run[i])
  {
    RunKeepsInv(plan, run, i);
  }

  /** Ascending places without repetition. */
  ghost predicate Ascending(plan: seq<Assignment>, s: seq<Executed>) {
    forall i, j :: 0 <= i < j < |s| ==> OrderOf(plan, s[i].taskName) < OrderOf(plan, s[j].taskName)
  }

  ghost predicate PlacesDiffer(plan: seq<Assignment>, s: seq<Executed>) {
    forall i, j :: 0 <= i < j < |s| ==> OrderOf(plan, s[i].taskName) != OrderOf(plan, s[j].taskName)
  }

  lemma {:induction false} InsertKeepsAscending(plan: seq<Assignment>, sorted: seq<Executed>, r: Executed)
    requires Ascending(plan, sorted)
    requires forall x <- sorted :: OrderOf(plan, x.taskName) != OrderOf(plan, r.taskName)
    ensures Ascending(plan, InsertByOrder(plan, sorted, r))
    ensures forall x :: x in InsertByOrder(plan, sorted, r) <==> x in sorted || x == r
  {
    if |sorted| > 0 && OrderOf(plan, sorted[|sorted| - 1].taskName) > OrderOf(plan, r.taskName) {
      var init, last := sorted[..|sorted| - 1], sorted[|sorted| - 1];
      assert sorted == init + [last];
      InsertKeepsAscending(plan, init, r);
      var front := InsertByOrder(plan, init, r);
      assert InsertByOrder(plan, sorted, r) == front + [last];
      forall i | 0 <= i < |front| ensures OrderOf(plan, front[i].taskName) < OrderOf(plan, last.taskName) {
        assert front[i] in front;
      }
    } else {
      assert InsertByOrder(plan, sorted, r) == sorted + [r];
      assert |sorted| > 0 ==> sorted[|sorted| - 1] in sorted;
    }
  }

  lemma {:induction false} SortAscends(plan: seq<Assignment>, results: seq<Executed>)
    requires PlacesDiffer(plan, results)
    ensures Ascending(plan, InPlanOrder(plan, results))
    ensures forall x :: x in InPlanOrder(plan, results) <==> x in results
  {
    if |results| > 0 {
      var init, last := results[..|results| - 1], results[|results| - 1];
      assert results == init + [last];
      SortAscends(plan, init);
      InsertKeepsAscending(plan, InPlanOrder(plan, init), last);
    }
  }

  lemma {:induction false} OrderOfPlanned(plan: seq<Assignment>, i: nat)
    requires NamesDiffer(plan) && i < |plan|
    ensures OrderOf(plan, plan[i].taskName) == i
  {
    if i < |plan| - 1 {
      assert plan[i].taskName != plan[|plan| - 1].taskName;
      OrderOfPlanned(plan[..|plan| - 1], i);
    }
  }

  lemma {:induction false} AtLeast(places: seq<nat>, k: nat)
    requires k < |places| && forall i, j :: 0 <= i < j < |places| ==> places[i] < places[j]
    ensures places[k] >= k
  {
    if k > 0 { AtLeast(places, k - 1); }
  }

  /** Numbers below `n` in ascending order, all of them, are 0, 1, ... in turn. */
  lemma AllInTurn(places: seq<nat>, n: nat)
    requires forall i, j :: 0 <= i < j < |places| ==> places[i] < places[j]
    requires forall x: nat :: x < n ==> x in places
    requires forall k :: 0 <= k < |places| ==> places[k] < n
    ensures |places| == n && forall k :: 0 <= k < n ==> places[k] == k
  {
    if |places| > 0 { AtLeast(places, |places| - 1); }
    InTurn(places, n);
  }

  lemma {:induction false} InTurn(places: seq<nat>, n: nat)
    requires forall i, j :: 0 <= i < j < |places| ==> places[i] < places[j]
    requires forall x: nat :: x < n ==> x in places
    requires |places| <= n
    ensures |places| == n && forall k :: 0 <= k < n ==> places[k] == k
    decreases n
  {
    if n > 0 {
      var top: nat := n - 1;
      assert top in places;
      var m :| 0 <= m < |places| && places[m] == top;
      var front := places[..m];
      forall x: nat | x < n - 1 ensures x in front {
        assert x in places;
        var k :| 0 <= k < |places| && places[k] == x;
        assert k < m && front[k] == x;
      }
      InTurn(front, n - 1);
    }
  }

  lemma AllPlaces(plan: seq<Assignment>, s: Execution)
    requires ResultsMatch(plan, s)
    ensures PlacesDiffer(plan, s.results)
  {
    forall i, j | 0 <= i < j < |s.results|
      ensures OrderOf(plan, s.results[i].taskName) != OrderOf(plan, s.results[j].taskName)
    {
      assert Planned(plan, s, s.results[i]) && Planned(plan, s, s.results[j]);
    }
  }

  ghost predicate AllFinished(s: Execution) { forall c <- s.workers :: s.workers[c].stage.Finished? }

  lemma EverythingIsDone(plan: seq<Assignment>, s: Execution)
    requires WellPlaced(plan) && Inv(plan, s) && AllFinished(s)
    ensures forall a <- plan :: s.Done(a)
  {
    forall a | a in plan ensures s.Done(a) {
      assert OnCore(plan, a.coreId) != [];
      assert CoreInOrder(plan, s, a.coreId);
    }
  }

  lemma PlacesOf(plan: seq<Assignment>, sorted: seq<Executed>) returns (places: seq<nat>)
    requires Ascending(plan, sorted)
    ensures |places| == |sorted| && forall k :: 0 <= k < |sorted| ==> places[k] == OrderOf(plan, sorted[k].taskName)
    ensures forall i, j :: 0 <= i < j < |places| ==> places[i] < places[j]
  {
    places := seq(|sorted|, k requires 0 <= k < |sorted| => OrderOf(plan, sorted[k].taskName));
  }

  lemma EveryPlaceHasAResult(plan: seq<Assignment>, s: Execution, sorted: seq<Executed>, places: seq<nat>, x: nat)
    requires NamesDiffer(plan) && ResultsMatch(plan, s) && x < |plan| && s.Done(plan[x])
    requires forall r :: r in sorted <==> r in s.results
    requires |places| == |sorted| && forall k :: 0 <= k < |sorted| ==> places[k] == OrderOf(plan, sorted[k].taskName)
    ensures x in places
  {
    assert Reported(s, plan[x]);
    var r :| r in s.results && IsFor(r, plan[x]);
    assert r in sorted;
    var k :| 0 <= k < |sorted| && sorted[k] == r;
    OrderOfPlanned(plan, x);
    assert places[k] == x;
  }

  lemma SortedPlaces(plan: seq<Assignment>, s: Execution, sorted: seq<Executed>) returns (places: seq<nat>)
    requires NamesDiffer(plan) && ResultsMatch(plan, s) && forall a <- plan :: s.Done(a)
    requires Ascending(plan, sorted) && forall x :: x in sorted <==> x in s.results
    ensures |places| == |sorted| == |plan|
    ensures forall k :: 0 <= k < |sorted| ==> places[k] == OrderOf(plan, sorted[k].taskName) == k
  {
    places := PlacesOf(plan, sorted);
    forall x: nat | x < |plan| ensures x in places { EveryPlaceHasAResult(plan, s, sorted, places, x); }
    forall k | 0 <= k < |sorted| ensures places[k] < |plan| { assert Planned(plan, s, sorted[k]); }
    AllInTurn(places, |plan|);
  }

  lemma CompleteInPlanOrder(plan: seq<Assignment>, s: Execution, sorted: seq<Executed>)
    requires WellPlaced(plan) && Inv(plan, s) && AllFinished(s) && sorted == InPlanOrder(plan, s.results)
    ensures |sorted| == |plan| && forall k :: 0 <= k < |plan| ==> IsFor(sorted[k], plan[k])
    ensures forall x :: x in sorted <==> x in s.results
  {
    hide CoreInOrder, Counted;
    EverythingIsDone(plan, s);
    AllPlaces(plan, s);
    SortAscends(plan, s.results);
    var places := SortedPlaces(plan, s, sorted);
    forall k | 0 <= k < |sorted| ensures IsFor(sorted[k], plan[k]) { assert Planned(plan, s, sorted[k]); }
  }

  /**
    However the workers interleave: when all have finished, the sorted results are those of the plan's tasks, each once
    and in plan order, every process result is among them, and the counter went 1, 2, ... up to the number of tasks.
   */
  lemma ResultsComeInPlanOrder(
    plan: SchedulePlan, strategy: Strategy, tasks: seq<Task>, cores: seq<int>, run: seq<Execution>, i: nat)
    requires PlanFor(plan, strategy, tasks, cores) && Plannable(tasks)
    requires IsRun(plan.assignments, run) && i < |run| && AllFinished(run[i])
    ensures var sorted := InPlanOrder(plan.assignments, run[i].results);
            && |sorted| == |tasks|
            && (forall k :: 0 <= k < |tasks| ==> IsFor(sorted[k], plan.assignments[k]))
            && forall x :: x in sorted <==> x in run[i].results
    ensures |run[i].reports| == |tasks| && forall k :: 0 <= k < |tasks| ==> run[i].reports[k] == k + 1
  {
    PlanIsWellPlaced(plan, strategy, tasks, cores);
    RunKeepsInv(plan.assignments, run, i);
    CompleteInPlanOrder(plan.assignments, run[i], InPlanOrder(plan.assignments, run[i].results));
    PlanIsSorted(tasks);
  }
}
