/**
  The planner: round-robin FIFO, and longest-first order with least-loaded cores.
  Times are whole milliseconds; loads are sums, so nothing is rounded.
 */
module Scheduler {
  import opened Wrappers

  datatype Strategy = FifoBaseline | ResourceAware

  type Millis = n: int | n >= 1 witness 1

  datatype Task = Task(name: string, estimatedMs: Millis, dependsOn: seq<string>)

  datatype Assignment = Assignment(
    taskName: string, coreId: int, queuePosition: nat, startMs: nat, finishMs: nat)

  datatype SchedulePlan = SchedulePlan(
    strategy: Strategy, coreIds: seq<int>, orderedTasks: seq<Task>, assignments: seq<Assignment>,
    coreLoadsMs: map<int, nat>, totalMs: nat, makespanMs: nat)

  datatype PlanError =
    | NoCores | NegativeCore | DuplicateCore | DuplicateTaskName | DependenciesUnsupported | Cancelled

  // ---------------------------------------------------------------- loads

  function Estimates(tasks: seq<Task>): (w: seq<nat>)
    ensures |w| == |tasks|
  {
    seq(|tasks|, i requires 0 <= i < |tasks| => tasks[i].estimatedMs)
  }

  /** What the jobs put on core `c` weigh together. */
  function Load(w: seq<nat>, asg: seq<int>, c: int): nat
    requires |w| == |asg|
  {
    if |w| == 0 then 0
    else Load(w[..|w| - 1], asg[..|w| - 1], c) + if asg[|w| - 1] == c then w[|w| - 1] else 0
  }

  /** How many jobs are on core `c`. */
  function Occurrences(asg: seq<int>, c: int): nat {
    if |asg| == 0 then 0
    else Occurrences(asg[..|asg| - 1], c) + if asg[|asg| - 1] == c then 1 else 0
  }

  function Total(w: seq<nat>): nat {
    if |w| == 0 then 0 else Total(w[..|w| - 1]) + w[|w| - 1]
  }

  /** The largest load over the cores. */
  function Makespan(w: seq<nat>, asg: seq<int>, cores: seq<int>): (top: nat)
    requires |w| == |asg|
    ensures forall c :: c in cores ==> Load(w, asg, c) <= top
    ensures top == 0 || exists c :: c in cores && Load(w, asg, c) == top
  {
    if |cores| == 0 then 0
    else
      var rest := Makespan(w, asg, cores[..|cores| - 1]);
      var lastCore := cores[|cores| - 1];
      var last := Load(w, asg, lastCore);
      assert lastCore in cores;
      assert forall c :: c in cores <==> c in cores[..|cores| - 1] || c == cores[|cores| - 1] by {
        assert cores == cores[..|cores| - 1] + [cores[|cores| - 1]];
      }
      assert rest > 0 ==> exists c :: c in cores && Load(w, asg, c) == rest by {
        if rest > 0 {
          var c :| c in cores[..|cores| - 1] && Load(w, asg, c) == rest;
          assert c in cores;
        }
      }
      if rest < last then last else rest
  }

  ghost predicate Distinct<T>(s: seq<T>) {
    forall i, j :: 0 <= i < j < |s| ==> s[i] != s[j]
  }

  /** Any assignment of `n` jobs to the given cores: the competitors an optimum is taken over. */
  ghost predicate AssignsTo(asg: seq<int>, n: nat, cores: seq<int>) {
    |asg| == n && forall i :: 0 <= i < n ==> asg[i] in cores
  }

  // ---------------------------------------------------------------- ordering

  ghost predicate LongestFirst(tasks: seq<Task>) {
    forall i, j :: 0 <= i < j < |tasks| ==> tasks[i].estimatedMs >= tasks[j].estimatedMs
  }

  /** The tasks with one given estimate, in the order they appear. */
  function WithEstimate(tasks: seq<Task>, ms: int): seq<Task> {
    if |tasks| == 0 then []
    else WithEstimate(tasks[..|tasks| - 1], ms) +
         if tasks[|tasks| - 1].estimatedMs == ms then [tasks[|tasks| - 1]] else []
  }

  function InsertLongestFirst(sorted: seq<Task>, task: Task): (r: seq<Task>)
    ensures |r| == |sorted| + 1
  {
    if |sorted| == 0 || sorted[|sorted| - 1].estimatedMs >= task.estimatedMs then sorted + [task]
    else InsertLongestFirst(sorted[..|sorted| - 1], task) + [sorted[|sorted| - 1]]
  }

  /** Stable sort by estimate, largest first: equal estimates keep their order. */
  function ResourceAwarePlan(tasks: seq<Task>): (r: seq<Task>)
    ensures |r| == |tasks|
  {
    if |tasks| == 0 then []
    else InsertLongestFirst(ResourceAwarePlan(tasks[..|tasks| - 1]), tasks[|tasks| - 1])
  }

  lemma WithEstimateSnoc(s: seq<Task>, t: Task, ms: int)
    ensures WithEstimate(s + [t], ms) == WithEstimate(s, ms) + if t.estimatedMs == ms then [t] else []
  {
    assert (s + [t])[..|s|] == s;
  }

  lemma {:induction false} WithEstimateMembers(s: seq<Task>, ms: int)
    ensures forall t :: t in WithEstimate(s, ms) <==> t in s && t.estimatedMs == ms
  {
    if |s| > 0 {
      WithEstimateMembers(s[..|s| - 1], ms);
      assert s == s[..|s| - 1] + [s[|s| - 1]];
    }
  }

  lemma {:induction false} InsertKeepsOrder(s: seq<Task>, t: Task)
    requires LongestFirst(s)
    ensures LongestFirst(InsertLongestFirst(s, t))
    ensures multiset(InsertLongestFirst(s, t)) == multiset(s) + multiset{t}
  {
    if |s| > 0 && s[|s| - 1].estimatedMs < t.estimatedMs {
      var init, last := s[..|s| - 1], s[|s| - 1];
      var front := InsertLongestFirst(init, t);
      assert s == init + [last];
      InsertKeepsOrder(init, t);
      forall i | 0 <= i < |front| ensures front[i].estimatedMs >= last.estimatedMs {
        assert front[i] in multiset(front);
        assert front[i] in init || front[i] == t;
      }
    }
  }

  lemma {:induction false} InsertKeepsGroups(s: seq<Task>, t: Task, ms: int)
    ensures WithEstimate(InsertLongestFirst(s, t), ms) ==
            WithEstimate(s, ms) + if t.estimatedMs == ms then [t] else []
    decreases |s|
  {
    if |s| == 0 || s[|s| - 1].estimatedMs >= t.estimatedMs {
      WithEstimateSnoc(s, t, ms);
    } else {
      var init, last := s[..|s| - 1], s[|s| - 1];
      InsertKeepsGroups(init, t, ms);
      WithEstimateSnoc(InsertLongestFirst(init, t), last, ms);
    }
  }

  lemma {:induction false} PlanIsSorted(tasks: seq<Task>)
    ensures LongestFirst(ResourceAwarePlan(tasks))
    ensures multiset(ResourceAwarePlan(tasks)) == multiset(tasks)
  {
    if |tasks| > 0 {
      var init, last := tasks[..|tasks| - 1], tasks[|tasks| - 1];
      PlanIsSorted(init);
      InsertKeepsOrder(ResourceAwarePlan(init), last);
      assert tasks == init + [last];
    }
  }

  lemma {:induction false} PlanKeepsGroups(tasks: seq<Task>, ms: int)
    ensures WithEstimate(ResourceAwarePlan(tasks), ms) == WithEstimate(tasks, ms)
  {
    if |tasks| > 0 {
      var init, last := tasks[..|tasks| - 1], tasks[|tasks| - 1];
      var plan := ResourceAwarePlan(init);
      PlanKeepsGroups(init, ms);
      assert ResourceAwarePlan(tasks) == InsertLongestFirst(plan, last);
      InsertKeepsGroups(plan, last, ms);
    }
  }

  /** The plan's order is the tasks longest first, all of them, with ties in submission order. */
  lemma ResourceAwarePlanIsStableSort(tasks: seq<Task>, ms: int)
    ensures LongestFirst(ResourceAwarePlan(tasks))
    ensures multiset(ResourceAwarePlan(tasks)) == multiset(tasks)
    ensures WithEstimate(ResourceAwarePlan(tasks), ms) == WithEstimate(tasks, ms)
  {
    PlanIsSorted(tasks);
    PlanKeepsGroups(tasks, ms);
  }

  /** A longest-first sequence is fixed by its tie groups, so any stable sort gives this one. */
  lemma {:induction false} StableOrderIsUnique(a: seq<Task>, b: seq<Task>)
    requires LongestFirst(a) && LongestFirst(b)
    requires forall ms :: WithEstimate(a, ms) == WithEstimate(b, ms)
    ensures a == b
  {
    SameTasks(a, b);
    if |a| > 0 && |b| > 0 {
      var x, y := a[|a| - 1], b[|b| - 1];
      assert x in b && y in a;
      assert x.estimatedMs == y.estimatedMs;
      assert WithEstimate(a, x.estimatedMs) == WithEstimate(b, x.estimatedMs);
      assert x == WithEstimate(a, x.estimatedMs)[|WithEstimate(a, x.estimatedMs)| - 1];
      assert x == y;
      forall ms {:trigger WithEstimate(a[..|a| - 1], ms)}
        ensures WithEstimate(a[..|a| - 1], ms) == WithEstimate(b[..|b| - 1], ms)
      {
        var tail := if x.estimatedMs == ms then [x] else [];
        var front, other := WithEstimate(a[..|a| - 1], ms), WithEstimate(b[..|b| - 1], ms);
        assert front + tail == WithEstimate(a, ms) == WithEstimate(b, ms) == other + tail;
        assert |front| == |other| && front == (front + tail)[..|front|] && other == (other + tail)[..|other|];
      }
      StableOrderIsUnique(a[..|a| - 1], b[..|b| - 1]);
      assert a == a[..|a| - 1] + [x] && b == b[..|b| - 1] + [y];
    }
  }

  lemma SameTasks(a: seq<Task>, b: seq<Task>)
    requires forall ms :: WithEstimate(a, ms) == WithEstimate(b, ms)
    ensures forall t :: t in a <==> t in b
    ensures |a| == 0 <==> |b| == 0
  {
    forall t: Task ensures t in a <==> t in b {
      WithEstimateMembers(a, t.estimatedMs);
      WithEstimateMembers(b, t.estimatedMs);
      assert WithEstimate(a, t.estimatedMs) == WithEstimate(b, t.estimatedMs);
    }
    if |a| > 0 { assert a[0] in b; }
    if |b| > 0 { assert b[0] in a; }
  }

  // ---------------------------------------------------------------- timetables

  function CoresOf(assignments: seq<Assignment>): (asg: seq<int>)
    ensures |asg| == |assignments|
  {
    seq(|assignments|, i requires 0 <= i < |assignments| => assignments[i].coreId)
  }

  /** The slot that task `i` gets once the tasks before it sit on cores `asg`. */
  ghost function Slot(tasks: seq<Task>, asg: seq<int>, i: nat): Assignment
    requires i < |tasks| && i < |asg|
  {
    var start := Load(Estimates(tasks)[..i], asg[..i], asg[i]);
    Assignment(tasks[i].name, asg[i], Occurrences(asg[..i], asg[i]), start, start + tasks[i].estimatedMs)
  }

  /** Every task in order has the slot right after the earlier tasks of its core. */
  ghost predicate Timetable(tasks: seq<Task>, assignments: seq<Assignment>) {
    && |assignments| <= |tasks|
    && forall i :: 0 <= i < |assignments| ==> assignments[i] == Slot(tasks, CoresOf(assignments), i)
  }

  /** The loads table lists exactly the cores, each with the work assigned to it so far. */
  ghost predicate LoadsMatch(loads: map<int, nat>, tasks: seq<Task>, asg: seq<int>, cores: seq<int>)
    requires |asg| <= |tasks|
  {
    && (forall c :: c in loads <==> c in cores)
    && forall c :: c in cores ==> loads[c] == Load(Estimates(tasks)[..|asg|], asg, c)
  }

  ghost predicate RoundRobin(asg: seq<int>, cores: seq<int>) {
    |cores| > 0 && forall i :: 0 <= i < |asg| ==> asg[i] == cores[i % |cores|]
  }

  predicate NoHeavier(load: nat, core: int, otherLoad: nat, other: int) {
    load < otherLoad || (load == otherLoad && core <= other)
  }

  /** With jobs `w` on cores `before`, no core is lighter than `core`, and no equally light one has a lower id. */
  ghost predicate Lightest(w: seq<nat>, before: seq<int>, core: int, cores: seq<int>)
    requires |before| == |w|
  {
    && core in cores
    && forall d :: d in cores ==> NoHeavier(Load(w, before, core), core, Load(w, before, d), d)
  }

  /** Each job in turn sits on the core that was lightest then. */
  ghost predicate LeastLoaded(w: seq<nat>, asg: seq<int>, cores: seq<int>) {
    && |asg| <= |w|
    && (|asg| > 0 ==>
          var n := |asg| - 1;
          LeastLoaded(w, asg[..n], cores) && Lightest(w[..n], asg[..n], asg[n], cores))
  }

  lemma {:induction false} LeastLoadedAt(w: seq<nat>, asg: seq<int>, cores: seq<int>, i: nat)
    requires LeastLoaded(w, asg, cores) && i < |asg|
    ensures Lightest(w[..i], asg[..i], asg[i], cores)
    decreases |asg|
  {
    if i + 1 < |asg| {
      LeastLoadedAt(w, asg[..|asg| - 1], cores, i);
      assert asg[..|asg| - 1][..i] == asg[..i];
    }
  }

  lemma LeastLoadedAssigns(w: seq<nat>, asg: seq<int>, cores: seq<int>)
    requires LeastLoaded(w, asg, cores)
    ensures AssignsTo(asg, |asg|, cores)
  {
    forall i | 0 <= i < |asg| ensures asg[i] in cores { LeastLoadedAt(w, asg, cores, i); }
  }

  lemma LoadSnoc(w: seq<nat>, asg: seq<int>, x: nat, d: int, c: int)
    requires |w| == |asg|
    ensures Load(w + [x], asg + [d], c) == Load(w, asg, c) + if d == c then x else 0
  {
    assert (w + [x])[..|w|] == w && (asg + [d])[..|w|] == asg;
  }

  /** Appending the next slot keeps the timetable. */
  lemma TimetableSnoc(tasks: seq<Task>, done: seq<Assignment>, core: int)
    requires Timetable(tasks, done) && |done| < |tasks|
    ensures var asg := CoresOf(done) + [core];
            var next := done + [Slot(tasks, asg, |done|)];
            CoresOf(next) == asg && Timetable(tasks, next)
  {
    var asg := CoresOf(done) + [core];
    var next := done + [Slot(tasks, asg, |done|)];
    assert CoresOf(next) == asg;
    forall i | 0 <= i < |next| ensures next[i] == Slot(tasks, asg, i) {
      assert asg[..i] == CoresOf(done)[..i];
    }
  }

  /** Only the chosen core's load and queue grow. */
  lemma PlacementGrows(tasks: seq<Task>, asg: seq<int>, core: int, c: int)
    requires |asg| < |tasks|
    ensures Load(Estimates(tasks)[..|asg| + 1], asg + [core], c) ==
            Load(Estimates(tasks)[..|asg|], asg, c) + if c == core then tasks[|asg|].estimatedMs else 0
    ensures Occurrences(asg + [core], c) == Occurrences(asg, c) + if c == core then 1 else 0
  {
    assert Estimates(tasks)[..|asg| + 1] == Estimates(tasks)[..|asg|] + [tasks[|asg|].estimatedMs as nat];
    LoadSnoc(Estimates(tasks)[..|asg|], asg, tasks[|asg|].estimatedMs, core, c);
  }

  /** The two tables of the assignment loops: the load and the queue length of every core. */
  ghost predicate TablesMatch(
    loads: map<int, nat>, positions: map<int, nat>, tasks: seq<Task>, asg: seq<int>, cores: seq<int>)
    requires |asg| <= |tasks|
  {
    && LoadsMatch(loads, tasks, asg, cores)
    && (forall c :: c in positions <==> c in cores)
    && forall c :: c in cores ==> positions[c] == Occurrences(asg, c)
  }

  /** One turn of the assignment loops. */
  lemma PlacementKeepsTables(
    loads: map<int, nat>, positions: map<int, nat>, tasks: seq<Task>, done: seq<Assignment>,
    cores: seq<int>, core: int)
    requires Timetable(tasks, done) && |done| < |tasks| && core in cores
    requires TablesMatch(loads, positions, tasks, CoresOf(done), cores)
    ensures var asg := CoresOf(done) + [core];
            var slot := CreateAssignment(tasks[|done|], core, positions[core], loads[core]);
            && CoresOf(done + [slot]) == asg && Timetable(tasks, done + [slot])
            && TablesMatch(loads[core := loads[core] + tasks[|done|].estimatedMs],
                           positions[core := positions[core] + 1], tasks, asg, cores)
  {
    hide Load, Timetable, Occurrences, Estimates;
    var asg := CoresOf(done) + [core];
    TimetableSnoc(tasks, done, core);
    assert asg[..|done|] == CoresOf(done);
    forall c | c in cores { PlacementGrows(tasks, CoresOf(done), core, c); }
  }

  method AssignFifo(tasks: seq<Task>, coreIds: seq<int>)
    returns (assignments: seq<Assignment>, coreLoads: map<int, nat>)
    requires |coreIds| > 0
    ensures |assignments| == |tasks| && Timetable(tasks, assignments)
    ensures RoundRobin(CoresOf(assignments), coreIds)
    ensures LoadsMatch(coreLoads, tasks, CoresOf(assignments), coreIds)
  {
    coreLoads := map c | c in coreIds :: 0;
    var queuePositions: map<int, nat> := map c | c in coreIds :: 0;
    assignments := [];
    for index := 0 to |tasks|
      invariant |assignments| == index && Timetable(tasks, assignments)
      invariant RoundRobin(CoresOf(assignments), coreIds)
      invariant TablesMatch(coreLoads, queuePositions, tasks, CoresOf(assignments), coreIds)
    {
      var coreId := coreIds[index % |coreIds|];
      PlacementKeepsTables(coreLoads, queuePositions, tasks, assignments, coreIds, coreId);
      assignments := assignments +
        [CreateAssignment(tasks[index], coreId, queuePositions[coreId], coreLoads[coreId])];
      coreLoads := coreLoads[coreId := coreLoads[coreId] + tasks[index].estimatedMs];
      queuePositions := queuePositions[coreId := queuePositions[coreId] + 1];
    }
  }

  function CreateAssignment(task: Task, coreId: int, queuePosition: nat, startMs: nat): Assignment {
    Assignment(task.name, coreId, queuePosition, startMs, startMs + task.estimatedMs)
  }

  /** The least key `(load, id)` over the given cores. */
  method MinCore(coreIds: seq<int>, coreLoads: map<int, nat>) returns (best: int)
    requires |coreIds| > 0
    requires forall c :: c in coreIds ==> c in coreLoads
    ensures best in coreIds
    ensures forall d :: d in coreIds ==> NoHeavier(coreLoads[best], best, coreLoads[d], d)
    ensures forall d :: d in coreIds ==> coreLoads[best] < coreLoads[d] || (coreLoads[best] == coreLoads[d] && best <= d)
  {
    best := coreIds[0];
    for k := 1 to |coreIds|
      invariant best in coreIds
      invariant forall j :: 0 <= j < k ==> coreIds[j] in coreLoads
      invariant forall j :: 0 <= j < k ==> NoHeavier(coreLoads[best], best, coreLoads[coreIds[j]], coreIds[j])
    {
      var item := coreIds[k];
      assert item in coreIds;
      if !NoHeavier(coreLoads[best], best, coreLoads[item], item) {
        best := item;
      }
    }
  }

  method AssignLeastLoaded(tasks: seq<Task>, coreIds: seq<int>)
    returns (assignments: seq<Assignment>, coreLoads: map<int, nat>)
    requires |coreIds| > 0
    ensures |assignments| == |tasks| && Timetable(tasks, assignments)
    ensures LeastLoaded(Estimates(tasks), CoresOf(assignments), coreIds)
    ensures LoadsMatch(coreLoads, tasks, CoresOf(assignments), coreIds)
  {
    coreLoads := map c | c in coreIds :: 0;
    var queuePositions: map<int, nat> := map c | c in coreIds :: 0;
    assignments := [];
    for index := 0 to |tasks|
      invariant |assignments| == index && Timetable(tasks, assignments)
      invariant LeastLoaded(Estimates(tasks), CoresOf(assignments), coreIds)
      invariant TablesMatch(coreLoads, queuePositions, tasks, CoresOf(assignments), coreIds)
    {
      var coreId := MinCore(coreIds, coreLoads);
      LeastLoadedSnoc(tasks, CoresOf(assignments), coreIds, coreLoads, coreId);
      PlacementKeepsTables(coreLoads, queuePositions, tasks, assignments, coreIds, coreId);
      assignments := assignments +
        [CreateAssignment(tasks[index], coreId, queuePositions[coreId], coreLoads[coreId])];
      coreLoads := coreLoads[coreId := coreLoads[coreId] + tasks[index].estimatedMs];
      queuePositions := queuePositions[coreId := queuePositions[coreId] + 1];
    }
  }

  lemma LeastLoadedSnoc(tasks: seq<Task>, asg: seq<int>, cores: seq<int>, loads: map<int, nat>, core: int)
    requires |asg| < |tasks| && LeastLoaded(Estimates(tasks), asg, cores)
    requires LoadsMatch(loads, tasks, asg, cores) && core in cores
    requires forall d :: d in cores ==> NoHeavier(loads[core], core, loads[d], d)
    ensures LeastLoaded(Estimates(tasks), asg + [core], cores)
  {
    assert (asg + [core])[..|asg|] == asg;
  }

  // ---------------------------------------------------------------- the plan

  ghost predicate UniqueNames(tasks: seq<Task>) {
    forall i, j :: 0 <= i < j < |tasks| ==> tasks[i].name != tasks[j].name
  }

  ghost predicate UsableCores(cores: seq<int>) {
    |cores| > 0 && Distinct(cores) && forall c :: c in cores ==> c >= 0
  }

  ghost predicate Plannable(tasks: seq<Task>) {
    UniqueNames(tasks) && forall t :: t in tasks ==> t.dependsOn == []
  }

  function CoresOrDefault(coreIds: Option<seq<int>>): seq<int> {
    if coreIds.None? then [0] else coreIds.value
  }

  lemma {:induction false} SetSizeTellsDuplicates<T>(s: seq<T>)
    ensures |set x | x in s| <= |s|
    ensures |set x | x in s| == |s| <==> Distinct(s)
  {
    if |s| > 0 {
      var init, last := s[..|s| - 1], s[|s| - 1];
      SetSizeTellsDuplicates(init);
      assert s == init + [last];
      if last in init {
        assert (set x | x in s) == (set x | x in init);
      } else {
        assert (set x | x in s) == (set x | x in init) + {last};
      }
    }
  }

  /** The same checks in the same order as the source; the first that fails names the error. */
  method NormalizeCoreIds(coreIds: Option<seq<int>>) returns (r: Result<seq<int>, PlanError>)
    ensures r.Ok? <==> UsableCores(CoresOrDefault(coreIds))
    ensures r.Ok? ==> r.value == if coreIds == None then [0] else coreIds.value
    ensures r.Ok? ==> |r.value| > 0 && forall c :: c in r.value ==> c >= 0
    ensures r.Ok? ==> forall i, j :: 0 <= i < j < |r.value| ==> r.value[i] != r.value[j]
    ensures r.Ok? ==> r.value == CoresOrDefault(coreIds)
    ensures r == Err(NoCores) <==> coreIds == Some([])
    ensures r == Err(NegativeCore) <==> exists c :: c in CoresOrDefault(coreIds) && c < 0
    ensures r.Err? ==> r.error in {NoCores, NegativeCore, DuplicateCore}
  {
    var normalized := CoresOrDefault(coreIds);
    if |normalized| == 0 { return Err(NoCores); }
    if exists c :: c in normalized && c < 0 { return Err(NegativeCore); }
    SetSizeTellsDuplicates(normalized);
    if |set c | c in normalized| != |normalized| { return Err(DuplicateCore); }
    return Ok(normalized);
  }

  method ValidateTasks(tasks: seq<Task>) returns (error: Option<PlanError>)
    ensures error.None? <==> Plannable(tasks)
    ensures error.None? <==>
      && (forall i, j :: 0 <= i < j < |tasks| ==> tasks[i].name != tasks[j].name)
      && forall t :: t in tasks ==> t.dependsOn == []
    ensures error == Some(DuplicateTaskName) <==> !UniqueNames(tasks)
    ensures error.Some? ==> error.value in {DuplicateTaskName, DependenciesUnsupported}
  {
    var names := seq(|tasks|, i requires 0 <= i < |tasks| => tasks[i].name);
    SetSizeTellsDuplicates(names);
    assert Distinct(names) <==> UniqueNames(tasks) by {
      assert forall i :: 0 <= i < |tasks| ==> names[i] == tasks[i].name;
    }
    if |set n | n in names| != |names| { return Some(DuplicateTaskName); }
    if exists t :: t in tasks && t.dependsOn != [] { return Some(DependenciesUnsupported); }
    return None;
  }

  /** What a returned plan promises. */
  ghost predicate PlanFor(plan: SchedulePlan, strategy: Strategy, tasks: seq<Task>, cores: seq<int>) {
    var asg := CoresOf(plan.assignments);
    && plan.strategy == strategy && plan.coreIds == cores
    && plan.orderedTasks == (if strategy.FifoBaseline? then tasks else ResourceAwarePlan(tasks))
    && |plan.assignments| == |plan.orderedTasks|
    && Timetable(plan.orderedTasks, plan.assignments)
    && LoadsMatch(plan.coreLoadsMs, plan.orderedTasks, asg, cores)
    && (if strategy.FifoBaseline? then RoundRobin(asg, cores)
        else LeastLoaded(Estimates(plan.orderedTasks), asg, cores))
    && plan.totalMs == Total(Estimates(plan.orderedTasks))
    && plan.makespanMs == Makespan(Estimates(plan.orderedTasks), asg, cores)
  }

  method SumEstimates(tasks: seq<Task>) returns (totalMs: nat)
    ensures totalMs == Total(Estimates(tasks))
  {
    totalMs := 0;
    for i := 0 to |tasks|
      invariant totalMs == Total(Estimates(tasks)[..i])
    {
      assert Estimates(tasks)[..i + 1][..i] == Estimates(tasks)[..i];
      totalMs := totalMs + tasks[i].estimatedMs;
    }
    assert Estimates(tasks)[..|tasks|] == Estimates(tasks);
  }

  method MaxLoad(tasks: seq<Task>, assignments: seq<Assignment>, coreLoads: map<int, nat>, cores: seq<int>)
    returns (makespanMs: nat)
    requires |assignments| == |tasks| && LoadsMatch(coreLoads, tasks, CoresOf(assignments), cores)
    ensures makespanMs == Makespan(Estimates(tasks), CoresOf(assignments), cores)
  {
    makespanMs := 0;
    assert Estimates(tasks)[..|tasks|] == Estimates(tasks);
    for k := 0 to |cores|
      invariant makespanMs == Makespan(Estimates(tasks), CoresOf(assignments), cores[..k])
    {
      assert cores[..k + 1][..k] == cores[..k];
      var core := cores[k];
      assert core in cores;
      if makespanMs < coreLoads[core] { makespanMs := coreLoads[core]; }
    }
    assert cores[..|cores|] == cores;
  }

  /** `cancelledEarly` and `cancelledLate` are what the two cancellation checks find. */
  method PlanTasks(
      strategy: Strategy, tasks: seq<Task>, coreIds: Option<seq<int>>,
      cancelledEarly: bool, cancelledLate: bool)
    returns (r: Result<SchedulePlan, PlanError>)
    ensures r.Ok? <==>
      && UsableCores(CoresOrDefault(coreIds)) && Plannable(tasks) && !cancelledEarly && !cancelledLate
    ensures r.Ok? ==> PlanFor(r.value, strategy, tasks, CoresOrDefault(coreIds))
    ensures r.Ok? ==> r.value.strategy == strategy && r.value.coreIds == if coreIds == None then [0] else coreIds.value
    ensures r == Err(Cancelled) ==> UsableCores(CoresOrDefault(coreIds)) && Plannable(tasks)
  {
    var normalized := NormalizeCoreIds(coreIds);
    if normalized.Err? { return Err(normalized.error); }
    var cores := normalized.value;
    var invalid := ValidateTasks(tasks);
    if invalid.Some? { return Err(invalid.value); }
    if cancelledEarly { return Err(Cancelled); }

    var ordered: seq<Task>, assignments: seq<Assignment>, coreLoads: map<int, nat>;
    if strategy.FifoBaseline? {
      ordered := tasks;
      assignments, coreLoads := AssignFifo(ordered, cores);
    } else {
      ordered := ResourceAwarePlan(tasks);
      assignments, coreLoads := AssignLeastLoaded(ordered, cores);
    }
    if cancelledLate { return Err(Cancelled); }

    var totalMs := SumEstimates(ordered);
    var makespanMs := MaxLoad(ordered, assignments, coreLoads, cores);
    return Ok(SchedulePlan(strategy, cores, ordered, assignments, coreLoads, totalMs, makespanMs));
  }
}
