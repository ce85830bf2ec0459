/**
  One task over its whole life, as the interleaving of everything that may touch it:

  - the worker that runs it (a code-generation task, any other managed task, or a process task),
  - any number of cancel requests and cleanup retries, and the startup pass after a crash,
  - the remote run of a code-generation task, which may write into the workspace until it ends,
  - process crashes.

  A step is one store transaction, one workspace deletion, or one observation of the remote run; any
  store call or deletion may also fail, and then the step takes the caller's error path.
 */
module TaskLifecycle {
  import opened Wrappers
  import opened TaskEntries

  // ---------------------------------------------------------------- the store, seen from here

  const PENDING: Metadata := map[CleanupPending := JsonBool(true)]
  const CLEARING: Metadata := map[CleanupPending := JsonBool(false)]
  const RUN_ID: Metadata := map[NaturalccRunId := JsonString("run")]
  const CONFIRMED: Metadata := map[NaturalccTerminalConfirmed := JsonBool(true)]

  /** The cleanup queue row; `clearing` when completing it will clear the pending mark. */
  datatype Queue = NotQueued | Queued(clearing: bool)

  /** The part of a task's store entry that decides about its workspace. */
  datatype Facts = Facts(
    status: Status, cancelRequested: bool, held: bool, queue: Queue, artifacts: bool,
    pending: bool, runRecorded: bool, confirmed: bool)
  {
    function TryStart(): Facts {
      if status.Pending? && !cancelRequested then this.(status := Running) else this
    }

    function RequestCancel(): Facts {
      if !status.Active() || cancelRequested then this
      else this.(cancelRequested := true, status := if status.Pending? then Cancelled else status)
    }

    function HoldWorkspace(): Facts { this.(held := true, pending := true) }

    function ReleaseWorkspace(): Facts { this.(held := false, pending := false) }

    function QueueCleanup(): Facts { this.(held := false, queue := Queued(true)) }

    function MarkCleanup(): Facts { this.(queue := if queue.Queued? then queue else Queued(false)) }

    function CompleteCleanup(): Facts {
      this.(queue := NotQueued, pending := pending && queue != Queued(true))
    }

    function RecordRun(): Facts { this.(runRecorded := true) }

    function Confirm(): Facts { this.(confirmed := true) }

    function Finalize(end: Status, opts: FinalizeOptions): Facts {
      if !status.Running? then this
      else
        var final := if cancelRequested then Cancelled else end;
        this.(status := final,
              artifacts := artifacts || (opts.artifactsOnSuccess && final.Succeeded?),
              queue := if opts.queueCleanup && !(final.Succeeded? && opts.preserveOnSuccess) && !held && queue.NotQueued?
                       then Queued(false) else queue)
    }

    function Recover(): Facts {
      if !status.Active() then this else this.(status := if cancelRequested then Cancelled else Failed)
    }
  }

  function FactsOf(e: Entry): Facts {
    var m := e.row.metadata;
    Facts(
      e.row.status, e.row.cancelRequested, e.held,
      if e.cleanup.None? then NotQueued else Queued(e.cleanup.value == CLEARING),
      e.artifacts,
      CleanupPending in m && m[CleanupPending] == JsonBool(true),
      NaturalccRunId in m && m[NaturalccRunId].JsonString?,
      NaturalccTerminalConfirmed in m && m[NaturalccTerminalConfirmed] == JsonBool(true))
  }

  /** Nothing but the clearing metadata is ever queued with a cleanup. */
  ghost predicate Tidy(e: Entry) {
    e.cleanup.Some? ==> e.cleanup.value == map[] || e.cleanup.value == CLEARING
  }

  /** The transactions that move the status, on the entry and on its facts. */
  lemma StartMatches(e: Entry)
    requires Tidy(e)
    ensures FactsOf(e.TryStart().0) == FactsOf(e).TryStart() && Tidy(e.TryStart().0)
    ensures e.TryStart().1 <==> FactsOf(e).TryStart().status.Running? && FactsOf(e).status.Pending?
  {
  }

  lemma CancelMatches(e: Entry, p: nat)
    requires Tidy(e)
    ensures FactsOf(e.RequestCancel().0) == FactsOf(e).RequestCancel() && Tidy(e.RequestCancel().0)
    ensures FactsOf(e.UpdateProgress(p)) == FactsOf(e) && Tidy(e.UpdateProgress(p))
  {
  }

  lemma FinalizeMatches(e: Entry, o: Outcome, opts: FinalizeOptions)
    requires Tidy(e) && o.status.Terminal()
    ensures FactsOf(e.Finalize(o, opts).0) == FactsOf(e).Finalize(o.status, opts) && Tidy(e.Finalize(o, opts).0)
    ensures FactsOf(e.Recover()) == FactsOf(e).Recover() && Tidy(e.Recover())
  {
    assert CleanupPending in CLEARING;
  }

  /** The transactions that hold, release and clean up the workspace, on the entry and on its facts. */
  lemma HoldAndReleaseMatch(e: Entry)
    requires Tidy(e)
    ensures FactsOf(e.Hold(Some(PENDING))) == FactsOf(e).HoldWorkspace() && Tidy(e.Hold(Some(PENDING)))
    ensures FactsOf(e.Release(Some(CLEARING))) == FactsOf(e).ReleaseWorkspace() && Tidy(e.Release(Some(CLEARING)))
  {
  }

  lemma CleanupMatches(e: Entry)
    requires Tidy(e)
    ensures FactsOf(e.MarkCleanupPending()) == FactsOf(e).MarkCleanup() && Tidy(e.MarkCleanupPending())
    ensures FactsOf(e.CompleteCleanup()) == FactsOf(e).CompleteCleanup() && Tidy(e.CompleteCleanup())
  {
    assert CleanupPending in CLEARING;
  }

  lemma QueueMatches(e: Entry)
    requires Tidy(e)
    ensures FactsOf(e.QueueCleanupAndRelease(CLEARING)) == FactsOf(e).QueueCleanup()
    ensures Tidy(e.QueueCleanupAndRelease(CLEARING))
  {
    assert Patch(map[], CLEARING) == CLEARING;
    assert Patch(CLEARING, CLEARING) == CLEARING;
  }

  lemma RunMetadataMatches(e: Entry)
    requires Tidy(e)
    ensures FactsOf(e.MergeMetadata(RUN_ID)) == FactsOf(e).RecordRun() && Tidy(e.MergeMetadata(RUN_ID))
    ensures FactsOf(e.MergeMetadata(CONFIRMED)) == FactsOf(e).Confirm() && Tidy(e.MergeMetadata(CONFIRMED))
  {
  }

  // ---------------------------------------------------------------- the machine

  /** `Live` also covers a run that may exist because the create request went out. */
  datatype Remote = NoRun | Rejected | Live | Ended

  /** Where a workspace sweep stands (`_cleanup_managed_task_workspaces`). */
  datatype Sweep = CheckHeld | Delete | Complete | MarkPending

  /** The worker. `end` is the status it will ask to record. */
  datatype Worker =
    | NotStarted | Entered | Orchestrate | CreateWorkspace | Prepare | HoldWorkspace | SendCreate | AwaitCreate
    | SetRun | RecordRun | Polling | MarkTerminal(completed: bool) | SelfScan
    | CancelPoll(end: Status) | CancelConfirm(end: Status) | Finish(end: Status)
    | Sweeping(stage: Sweep, end: Status) | Leave(end: Status) | Finalizing(end: Status)
    | ReadHold | ReadQueue | FinalSweep(stage: Sweep) | ReleaseHold | Finished
    | ProcessWorkspace | ProcessRun | ProcessFinalize(end: Status) | ProcessCleanup
  {
    /** No workspace will be created and no remote run started from here on. */
    predicate PastCreate() {
      !(NotStarted? || Entered? || Orchestrate? || CreateWorkspace? || Prepare? || HoldWorkspace? || SendCreate?
        || AwaitCreate? || ProcessWorkspace? || ProcessRun?)
    }

    predicate PastWorkspace() {
      !(NotStarted? || Entered? || CreateWorkspace? || ProcessWorkspace?)
    }

    /** The worker cannot record a success any more. */
    predicate Committed() {
      || CancelPoll? || CancelConfirm? || Finish? || Sweeping?
      || ((Leave? || Finalizing? || ProcessFinalize?) && Bad(end))
      || Over()
    }

    /** The task is finalized, or will never be by this worker. */
    predicate Over() {
      ReadHold? || ReadQueue? || FinalSweep? || ReleaseHold? || Finished? || ProcessCleanup?
    }

    predicate OfProcess() { ProcessWorkspace? || ProcessRun? || ProcessFinalize? || ProcessCleanup? }

    /** Steps every managed task takes, whatever orchestrates it. */
    predicate OfAnyManaged() {
      NotStarted? || Entered? || Finalizing? || ReadHold? || ReadQueue? || FinalSweep? || ReleaseHold? || Finished?
    }
  }

  predicate Bad(end: Status) { end.Failed? || end.Cancelled? }

  /** The other activities: cancel requests, cleanup retries, sweeps, and the startup pass. */
  datatype Activity =
    | AskCancel | LookUpRun | PollForCancel | ConfirmCancel | FinishCancel
    | ReadForRetry | PollForRetry | ConfirmRetry | RereadForRetry | FinishRetry(cleanup: bool)
    | SweepWorkspace(stage: Sweep, resume: Option<bool>)
    | StartRecover | StartList(recovered: bool) | StartCheck(recovered: bool) | StartDelete
    | Idle

  /** What runs the task, and whether its success preserves the workspace and publishes artifacts. */
  datatype Kind =
    | CodeGeneration
    | OtherManaged(preserve: bool, artifacts: bool)
    | Process(buildArtifacts: bool)

  datatype Sys = Sys(
    kind: Kind,
    facts: Facts,
    workspace: bool,        // present on disk
    attempted: bool,        // the create request was sent
    remote: Remote,
    observed: bool,         // some client read a terminal remote status
    runInMemory: bool,
    worker: Worker,
    activities: seq<Activity>,
    unheld: bool)           // history: startup recovery ended it after its workspace was created and before a hold
  {
    predicate RunKnown() { runInMemory || facts.runRecorded }

    /** No remote run can be writing: none was ever asked for, it was refused, or it was seen to have ended. */
    predicate Safe() { !attempted || remote.Rejected? || observed }

    /** The task is not a success that preserves its workspace, and cannot become one. */
    predicate Doomed() {
      && !Preserved()
      && (facts.status.Terminal() || facts.cancelRequested || worker.Committed())
    }

    /** The workspace is held, queued for cleanup, or gone. */
    predicate Accounted() { facts.held || facts.queue.Queued? || !workspace }

    predicate Managed() { !kind.Process? }

    /** Success keeps the workspace. */
    predicate Preserving() {
      match kind
      case CodeGeneration => true
      case OtherManaged(preserve, _) => preserve
      case Process(buildArtifacts) => buildArtifacts
    }

    predicate Preserved() { facts.status.Succeeded? && Preserving() }

    /** A managed task is over, its workspace serves no one, and nothing says that it has to be deleted. */
    predicate Lost() { Managed() && facts.status.Terminal() && !Preserved() && !Accounted() }

    /** The workspace was created and no hold was recorded yet. */
    predicate BeforeHold() { workspace && !facts.pending }
  }

  function Options(s: Sys): FinalizeOptions {
    match s.kind
    case CodeGeneration => FinalizeOptions(true, true, true)
    case OtherManaged(preserve, artifacts) => FinalizeOptions(artifacts, true, preserve)
    case Process(buildArtifacts) => FinalizeOptions(buildArtifacts, false, false)
  }

  /** A fresh task whose submitted metadata does not use the adapter's own keys. */
  ghost predicate Init(s: Sys) {
    && s.facts == Facts(Status.Pending, false, false, NotQueued, false, false, false, false)
    && !s.workspace && !s.attempted && s.remote.NoRun? && !s.observed && !s.runInMemory
    && s.worker.NotStarted? && s.activities == [] && !s.unheld
  }

  // ---------------------------------------------------------------- steps

  /** One step of a sweep; `next` is where it goes on, None when it is over. */
  ghost predicate SweepStep(s: Sys, stage: Sweep, facts: Facts, workspace: bool, next: Option<Sweep>) {
    match stage
    case CheckHeld => facts == s.facts && workspace == s.workspace && (next.None? || (!s.facts.held && next == Some(Delete)))
    case Delete =>
      && facts == s.facts
      && ((!workspace && next == Some(Complete)) || (workspace == s.workspace && next == Some(MarkPending)))
    case Complete => workspace == s.workspace && next.None? && (facts == s.facts || facts == s.facts.CompleteCleanup())
    case MarkPending => workspace == s.workspace && next.None? && (facts == s.facts || facts == s.facts.MarkCleanup())
  }

  /** The worker raised while the remote run was unknown to it. */
  ghost predicate Leaves(s: Sys, t: Sys) {
    t.worker.Leave? && Bad(t.worker.end) && t == s.(worker := t.worker)
  }

  /** The worker raised with a run id in hand. */
  ghost predicate Aborts(s: Sys, t: Sys) {
    t.worker.CancelPoll? && Bad(t.worker.end) && t == s.(worker := t.worker)
  }

  ghost predicate FinalizesTo(s: Sys, t: Sys, end: Status, onSuccess: Worker, otherwise: Worker) {
    var facts := s.facts.Finalize(end, Options(s));
    t == s.(facts := facts, worker := if facts.status.Succeeded? then onSuccess else otherwise)
  }

  ghost predicate WorkerSetUp(s: Sys, t: Sys) {
    match s.worker
    case NotStarted =>
      || t == s.(worker := Finished)
      || var facts := s.facts.TryStart();
         t == s.(facts := facts,
                 worker := if !facts.status.Running? then Finished else if s.Managed() then Entered else ProcessWorkspace)
    case Entered =>
      || (t.worker.Finalizing? && Bad(t.worker.end) && t == s.(worker := t.worker))
      || (!s.facts.cancelRequested && t == s.(worker := if s.kind.CodeGeneration? then CreateWorkspace else Orchestrate))
    case Orchestrate =>
      || (t.worker.Finalizing? && t.worker.end.Terminal() && t == s.(worker := t.worker))
      || t == s.(workspace := true)
    case CreateWorkspace =>
      || (t.worker.Leave? && Bad(t.worker.end) && t == s.(worker := t.worker, workspace := t.workspace))
      || t == s.(worker := Prepare, workspace := true)
    case Prepare => Leaves(s, t) || t == s.(worker := HoldWorkspace)
    case HoldWorkspace => Leaves(s, t) || t == s.(worker := SendCreate, facts := s.facts.HoldWorkspace())
    case SendCreate => Leaves(s, t) || t == s.(worker := AwaitCreate, attempted := true, remote := Live)
    case AwaitCreate =>
      || Leaves(s, t)
      || t == s.(worker := SetRun)
      || (s.remote.Live? && t == s.(worker := Finish(Failed), remote := Rejected))
    case _ => false
  }

  ghost predicate WorkerRun(s: Sys, t: Sys) {
    match s.worker
    case SetRun => t == s.(worker := RecordRun, runInMemory := true)
    case RecordRun => Aborts(s, t) || t == s.(worker := Polling, facts := s.facts.RecordRun())
    case Polling =>
      || Aborts(s, t)
      || (s.remote.Ended? && t.worker.MarkTerminal? && t == s.(worker := t.worker, observed := true))
    case MarkTerminal(completed) =>
      || Aborts(s, t)
      || (completed && t == s.(worker := SelfScan, facts := s.facts.Confirm()))
      || (!completed && t.worker.Finish? && Bad(t.worker.end)
          && t == s.(worker := t.worker, facts := s.facts.Confirm()))
    case SelfScan => Aborts(s, t) || t == s.(worker := Leave(Succeeded))
    case CancelPoll(end) =>
      || Leaves(s, t)
      || (s.RunKnown() && s.remote.Ended? && t == s.(worker := CancelConfirm(end), observed := true))
    case CancelConfirm(end) =>
      || t == s.(worker := CancelPoll(end))
      || t == s.(worker := Finish(end), facts := s.facts.Confirm())
    case _ => false
  }

  ghost predicate WorkerEnd(s: Sys, t: Sys) {
    match s.worker
    case Finish(end) =>
      || t == s.(worker := Leave(end))
      || t == s.(worker := Sweeping(CheckHeld, end), facts := s.facts.QueueCleanup())
    case Sweeping(stage, end) =>
      exists next ::
        && SweepStep(s, stage, t.facts, t.workspace, next)
        && t == s.(facts := t.facts, workspace := t.workspace,
                   worker := if next.None? then Leave(end) else Sweeping(next.value, end))
    case Leave(end) =>
      t.worker.Finalizing? && (t.worker.end == end || Bad(t.worker.end)) && t == s.(worker := t.worker, runInMemory := false)
    case Finalizing(end) => t == s.(worker := Finished) || FinalizesTo(s, t, end, if s.Preserving() then ReleaseHold else ReadHold, ReadHold)
    case ReleaseHold => t == s.(worker := Finished) || t == s.(worker := Finished, facts := s.facts.ReleaseWorkspace())
    case ReadHold => t == s.(worker := Finished) || (!s.facts.held && t == s.(worker := ReadQueue))
    case ReadQueue => t == s.(worker := Finished) || (s.facts.queue.Queued? && t == s.(worker := FinalSweep(CheckHeld)))
    case FinalSweep(stage) =>
      exists next ::
        && SweepStep(s, stage, t.facts, t.workspace, next)
        && t == s.(facts := t.facts, workspace := t.workspace,
                   worker := if next.None? then Finished else FinalSweep(next.value))
    case _ => false
  }

  ghost predicate ProcessStep(s: Sys, t: Sys) {
    match s.worker
    case ProcessWorkspace =>
      || (t.worker.ProcessFinalize? && Bad(t.worker.end) && t == s.(worker := t.worker, workspace := t.workspace))
      || t == s.(worker := ProcessRun, workspace := true)
    case ProcessRun => t.worker.ProcessFinalize? && t.worker.end.Terminal() && t == s.(worker := t.worker)
    case ProcessFinalize(end) =>
      || t == s.(worker := ProcessCleanup)
      || FinalizesTo(s, t, end, if s.Preserving() then Finished else ProcessCleanup, ProcessCleanup)
    case ProcessCleanup => t == s.(worker := Finished) || t == s.(worker := Finished, workspace := false)
    case _ => false
  }

  /** What one activity does to the shared state and to itself. */
  ghost predicate ActivityMove(s: Sys, a: Activity, t: Sys, b: Activity) {
    || (t == s && b.Idle?)
    || match a
       case AskCancel =>
         && t == s.(facts := s.facts.RequestCancel())
         && b == if t.facts.cancelRequested then LookUpRun else Idle
       case LookUpRun => t == s && s.RunKnown() && b == PollForCancel
       case PollForCancel => s.remote.Ended? && t == s.(observed := true) && b == ConfirmCancel
       case ConfirmCancel =>
         || (t == s && b == PollForCancel)
         || (t == s.(facts := s.facts.Confirm()) && b == FinishCancel)
       case FinishCancel => t == s.(facts := s.facts.QueueCleanup()) && b == SweepWorkspace(CheckHeld, None)
       case ReadForRetry =>
         && t == s && s.facts.pending && s.facts.status.Terminal()
         && if s.facts.confirmed then b == RereadForRetry
            else s.RunKnown() && b == PollForRetry
       case PollForRetry => s.remote.Ended? && t == s.(observed := true) && b == ConfirmRetry
       case ConfirmRetry =>
         || (t == s && b == PollForRetry)
         || (t == s.(facts := s.facts.Confirm()) && b == RereadForRetry)
       case RereadForRetry => t == s && b == FinishRetry(!s.facts.status.Succeeded?)
       case FinishRetry(cleanup) =>
         if cleanup then
           t == s.(facts := s.facts.QueueCleanup()) && b == SweepWorkspace(CheckHeld, None)
         else t == s.(facts := s.facts.ReleaseWorkspace()) && b == Idle
       case SweepWorkspace(stage, resume) =>
         exists next ::
           && SweepStep(s, stage, t.facts, t.workspace, next)
           && t == s.(facts := t.facts, workspace := t.workspace)
           && b == (if next.Some? then SweepWorkspace(next.value, resume)
                    else if resume.Some? then StartCheck(resume.value) else Idle)
       case StartRecover =>
         var active := s.facts.status.Active();
         && t == s.(facts := s.facts.Recover(), unheld := s.unheld || (active && s.Managed() && s.BeforeHold()))
         && b == StartList(active)
       case StartList(r) =>
         t == s && (b == StartCheck(r) || (s.facts.queue.Queued? && b == SweepWorkspace(CheckHeld, Some(r))))
       case StartCheck(r) => t == s && r && !s.facts.held && b == StartDelete
       case StartDelete => t == s.(workspace := false) && b == Idle
       case Idle => false
  }

  ghost predicate ActivityStep(s: Sys, t: Sys, i: nat) {
    && i < |s.activities| == |t.activities|
    && ActivityMove(s, s.activities[i], t.(activities := s.activities), t.activities[i])
    && t.activities == s.activities[i := t.activities[i]]
  }

  /** A crash takes every thread with it; the next process begins with the startup pass. */
  ghost predicate Crash(s: Sys, t: Sys) {
    t == s.(worker := Finished, runInMemory := false, activities := [StartRecover])
  }

  ghost predicate WorldStep(s: Sys, t: Sys) {
    || (s.remote.Live? && t == s.(remote := Ended))
    || t == s.(activities := s.activities + [AskCancel])
    || t == s.(activities := s.activities + [ReadForRetry])
    || Crash(s, t)
  }

  ghost predicate WorkerStep(s: Sys, t: Sys) {
    WorkerSetUp(s, t) || WorkerRun(s, t) || WorkerEnd(s, t) || ProcessStep(s, t)
  }

  ghost predicate Step(s: Sys, t: Sys) {
    WorkerStep(s, t) || WorldStep(s, t) || exists i :: ActivityStep(s, t, i)
  }

  ghost predicate IsRun(run: seq<Sys>) {
    && |run| > 0 && Init(run[0])
    && forall i :: 0 <= i < |run| - 1 ==> Step(run[i], run[i + 1])
  }
}
