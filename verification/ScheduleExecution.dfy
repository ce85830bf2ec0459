/**
  The executor's regrouping of a plan into one queue per core, and what a planned queue looks like.
 */
module ScheduleExecution {
  import opened Scheduler

  /** The assignments of one core, in plan order. */
  function OnCore(assignments: seq<Assignment>, core: int): seq<Assignment> {
    if |assignments| == 0 then []
    else OnCore(assignments[..|assignments| - 1], core) +
         if assignments[|assignments| - 1].coreId == core then [assignments[|assignments| - 1]] else []
  }

  function InsertByPosition(sorted: seq<Assignment>, a: Assignment): seq<Assignment> {
    if |sorted| == 0 || sorted[|sorted| - 1].queuePosition <= a.queuePosition then sorted + [a]
    else InsertByPosition(sorted[..|sorted| - 1], a) + [sorted[|sorted| - 1]]
  }

  /** Stable sort by queue position. */
  function SortByPosition(queue: seq<Assignment>): seq<Assignment> {
    if |queue| == 0 then []
    else InsertByPosition(SortByPosition(queue[..|queue| - 1]), queue[|queue| - 1])
  }

  lemma OnCoreSnoc(assignments: seq<Assignment>, n: nat, core: int)
    requires n < |assignments|
    ensures OnCore(assignments[..n + 1], core) ==
            OnCore(assignments[..n], core) + if assignments[n].coreId == core then [assignments[n]] else []
  {
    assert assignments[..n + 1][..n] == assignments[..n];
  }

  /** The assignments of every planned core, in plan order. */
  method GroupByCore(plan: SchedulePlan) returns (queues: map<int, seq<Assignment>>)
    requires forall k :: 0 <= k < |plan.assignments| ==> plan.assignments[k].coreId in plan.coreIds
    ensures forall c :: c in queues <==> c in plan.coreIds
    ensures forall c <- queues :: queues[c] == OnCore(plan.assignments, c)
  {
    queues := map c | c in plan.coreIds :: [];
    for i := 0 to |plan.assignments|
      invariant forall c :: c in queues <==> c in plan.coreIds
      invariant forall c <- queues :: queues[c] == OnCore(plan.assignments[..i], c)
    {
      forall c | c in queues
        ensures OnCore(plan.assignments[..i + 1], c) ==
                queues[c] + if plan.assignments[i].coreId == c then [plan.assignments[i]] else []
      {
        OnCoreSnoc(plan.assignments, i, c);
      }
      var assignment := plan.assignments[i];
      queues := queues[assignment.coreId := queues[assignment.coreId] + [assignment]];
    }
    assert plan.assignments[..|plan.assignments|] == plan.assignments;
  }

  /** One queue per planned core, each sorted by queue position. */
  method BuildCoreQueues(plan: SchedulePlan) returns (queues: map<int, seq<Assignment>>)
    requires Distinct(plan.coreIds)
    requires forall k :: 0 <= k < |plan.assignments| ==> plan.assignments[k].coreId in plan.coreIds
    ensures forall c :: c in queues <==> c in plan.coreIds
    ensures forall c <- queues :: queues[c] == SortByPosition(OnCore(plan.assignments, c))
  {
    queues := GroupByCore(plan);
    ghost var grouped := queues;
    for k := 0 to |plan.coreIds|
      invariant forall c :: c in queues <==> c in grouped
      invariant forall c <- queues :: queues[c] == if c in plan.coreIds[..k] then SortByPosition(grouped[c]) else grouped[c]
    {
      var core := plan.coreIds[k];
      assert plan.coreIds[..k + 1] == plan.coreIds[..k] + [core];
      assert core !in plan.coreIds[..k];
      queues := queues[core := SortByPosition(queues[core])];
    }
    assert plan.coreIds[..|plan.coreIds|] == plan.coreIds;
  }

  /** Positions 0..k-1, each start the finish before it, the last finish the core's load. */
  ghost predicate PackedQueue(queue: seq<Assignment>, core: int, load: nat) {
    && (forall j :: 0 <= j < |queue| ==>
          && queue[j].coreId == core
          && queue[j].queuePosition == j
          && queue[j].startMs == (if j == 0 then 0 else queue[j - 1].finishMs)
          && queue[j].startMs < queue[j].finishMs)
    && load == if |queue| == 0 then 0 else queue[|queue| - 1].finishMs
  }

  lemma PackedSnoc(queue: seq<Assignment>, core: int, load: nat, a: Assignment)
    requires PackedQueue(queue, core, load)
    requires a.coreId == core && a.queuePosition == |queue| && a.startMs == load < a.finishMs
    ensures PackedQueue(queue + [a], core, a.finishMs)
  {
  }

  lemma TimetablePrefix(tasks: seq<Task>, assignments: seq<Assignment>)
    requires Timetable(tasks, assignments) && |assignments| > 0
    ensures var n := |assignments| - 1;
            CoresOf(assignments[..n]) == CoresOf(assignments)[..n] && Timetable(tasks, assignments[..n])
  {
    var n := |assignments| - 1;
    assert CoresOf(assignments[..n]) == CoresOf(assignments)[..n];
    forall i | 0 <= i < n ensures assignments[..n][i] == Slot(tasks, CoresOf(assignments[..n]), i) {
      assert CoresOf(assignments[..n])[..i] == CoresOf(assignments)[..i];
    }
  }

  lemma LastSlot(tasks: seq<Task>, assignments: seq<Assignment>)
    requires Timetable(tasks, assignments) && |assignments| > 0
    ensures var n, last := |assignments| - 1, assignments[|assignments| - 1];
            var asg := CoresOf(assignments[..n]);
            var start := Load(Estimates(tasks)[..n], asg, last.coreId);
            && CoresOf(assignments) == asg + [last.coreId]
            && last == Assignment(tasks[n].name, last.coreId, Occurrences(asg, last.coreId), start, start + tasks[n].estimatedMs)
  {
    hide Load, Occurrences;
    TimetablePrefix(tasks, assignments);
  }

  lemma LastOnCore(assignments: seq<Assignment>, core: int)
    requires |assignments| > 0
    ensures var n, last := |assignments| - 1, assignments[|assignments| - 1];
            OnCore(assignments, core) == OnCore(assignments[..n], core) + if last.coreId == core then [last] else []
  {
  }

  /** What the last assignment of a timetable adds to the queue and the load of a core. */
  lemma LastPlacement(tasks: seq<Task>, assignments: seq<Assignment>, core: int)
    requires Timetable(tasks, assignments) && |assignments| > 0
    ensures var n, last := |assignments| - 1, assignments[|assignments| - 1];
            var init := assignments[..n];
            var load := Load(Estimates(tasks)[..n], CoresOf(init), core);
            && OnCore(assignments, core) == (if last.coreId == core then OnCore(init, core) + [last] else OnCore(init, core))
            && Occurrences(CoresOf(assignments), core) == Occurrences(CoresOf(init), core) + (if last.coreId == core then 1 else 0)
            && (last.coreId == core ==> last.queuePosition == Occurrences(CoresOf(init), core) && last.startMs == load < last.finishMs)
            && Load(Estimates(tasks)[..n + 1], CoresOf(assignments), core) == if last.coreId == core then last.finishMs else load
  {
    var n, last := |assignments| - 1, assignments[|assignments| - 1];
    LastSlot(tasks, assignments);
    LastOnCore(assignments, core);
    hide Load, Occurrences, Estimates, OnCore, Timetable;
    PlacementGrows(tasks, CoresOf(assignments[..n]), last.coreId, core);
  }

  /** In a timetable every core's queue is packed: no gap, no overlap, no job missing. */
  lemma {:induction false} TimetableIsPacked(tasks: seq<Task>, assignments: seq<Assignment>, core: int)
    requires Timetable(tasks, assignments)
    ensures |OnCore(assignments, core)| == Occurrences(CoresOf(assignments), core)
    ensures PackedQueue(OnCore(assignments, core), core,
                        Load(Estimates(tasks)[..|assignments|], CoresOf(assignments), core))
    decreases |assignments|
  {
    if |assignments| > 0 {
      var n, last := |assignments| - 1, assignments[|assignments| - 1];
      TimetablePrefix(tasks, assignments);
      TimetableIsPacked(tasks, assignments[..n], core);
      LastPlacement(tasks, assignments, core);
      if last.coreId == core {
        PackedSnoc(OnCore(assignments[..n], core), core, last.startMs, last);
      }
    }
  }

  lemma {:induction false} SortKeepsPackedOrder(queue: seq<Assignment>)
    requires forall j :: 0 <= j < |queue| ==> queue[j].queuePosition == j
    ensures SortByPosition(queue) == queue
  {
    if |queue| > 0 {
      SortKeepsPackedOrder(queue[..|queue| - 1]);
      assert queue == queue[..|queue| - 1] + [queue[|queue| - 1]];
    }
  }

  /** So the executor runs each core's tasks exactly in the planned order, for either strategy. */
  lemma ExecutorKeepsPlannedOrder(plan: SchedulePlan, strategy: Strategy, tasks: seq<Task>, cores: seq<int>, core: int)
    requires PlanFor(plan, strategy, tasks, cores) && core in cores
    ensures SortByPosition(OnCore(plan.assignments, core)) == OnCore(plan.assignments, core)
    ensures PackedQueue(OnCore(plan.assignments, core), core, plan.coreLoadsMs[core])
  {
    TimetableIsPacked(plan.orderedTasks, plan.assignments, core);
    SortKeepsPackedOrder(OnCore(plan.assignments, core));
  }
}
