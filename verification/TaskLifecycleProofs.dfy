/**
  What every interleaving of module TaskLifecycle keeps: when a workspace may be deleted, that a
  published artifact survives, and that no finalized workspace is lost track of.
 */
module TaskLifecycleProofs {
  import opened Wrappers
  import opened TaskEntries
  import opened TaskLifecycle

  // ---------------------------------------------------------------- the invariant

  ghost predicate SweepOk(s: Sys, stage: Sweep) {
    && s.Managed() && s.Doomed() && s.worker.PastCreate()
    && (s.facts.status.Active() ==> s.attempted)
    && (stage.Delete? ==> s.Safe())
    && (stage.Complete? ==> !s.workspace)
  }

  ghost predicate Untried(s: Sys) {
    && !s.attempted && s.facts.queue.NotQueued? && !s.facts.held && !s.facts.pending && !s.RunKnown() && !s.observed
  }

  /** What holds of the task while the worker is where it is. */
  ghost predicate WorkerOk(s: Sys) {
    var w, status := s.worker, s.facts.status;
    && (!w.NotStarted? && !w.Over() ==> status.Running?)
    && (w.NotStarted? ==> status.Pending? || status.Cancelled?)
    && (!w.PastWorkspace() ==> !s.workspace)
    && (w.OfProcess() ==> s.kind.Process?)
    && (w.Orchestrate? ==> s.kind.OtherManaged?)
    && (!w.OfProcess() && !w.NotStarted? && !w.Finished? ==> s.Managed())
    && (!w.OfProcess() && !w.OfAnyManaged() && !w.Orchestrate? ==> s.kind.CodeGeneration?)
    && (w.NotStarted? || w.Entered? || w.Orchestrate? || w.CreateWorkspace? || w.Prepare? || w.HoldWorkspace? ==> Untried(s))
    && (w.SendCreate? || w.AwaitCreate? ==>
          s.facts.held && s.facts.queue.NotQueued? && !s.RunKnown() && !s.observed && s.attempted == w.AwaitCreate?)
    && (w.SetRun? || w.RecordRun? || w.Polling? ==> s.attempted)
    && (w.MarkTerminal? || w.SelfScan? || w.CancelConfirm? ==> s.observed)
    && (w.CancelPoll? || w.CancelConfirm? || w.Finish? || w.Sweeping? ==> Bad(w.end))
    && (w.Leave? || w.Finalizing? ==> w.end.Terminal() && (w.end.Succeeded? && s.kind.CodeGeneration? ==> s.observed))
    && (w.ProcessFinalize? ==> w.end.Terminal())
    && (w.Finish? ==> s.attempted && s.Safe())
    && (w.Sweeping? || w.FinalSweep? ==> SweepOk(s, w.stage))
    && (w.ReadHold? || w.ReadQueue? || w.FinalSweep? ==> status.Terminal() && s.Doomed())
    && (w.ReleaseHold? ==> s.Preserved())
    && (w.ProcessCleanup? ==> s.Doomed() || !s.Preserving())
  }

  /** What holds of the task while an activity is where it is; all of it outlives every other step. */
  ghost predicate ActivityOk(s: Sys, a: Activity) {
    var row := s.facts;
    && (a.LookUpRun? || a.PollForCancel? || a.ConfirmCancel? || a.FinishCancel? ==> row.cancelRequested)
    && (a.PollForRetry? || a.ConfirmRetry? || a.RereadForRetry? || a.FinishRetry? ==> row.status.Terminal())
    && (a.PollForCancel? || a.PollForRetry? ==> s.worker.PastCreate())
    && (a.ConfirmCancel? || a.FinishCancel? || a.ConfirmRetry? || a.RereadForRetry? || a.FinishRetry? ==>
          s.worker.PastCreate() && s.observed)
    && (a.FinishRetry? ==> a.cleanup == !row.status.Succeeded?)
    && (a.SweepWorkspace? ==> SweepOk(s, a.stage) && (a.resume.Some? ==> StartupOk(s, a.resume.value)))
    && (a.StartRecover? ==> s.worker.Finished?)
    && (a.StartList? || a.StartCheck? ==> StartupOk(s, a.recovered))
    && (a.StartDelete? ==> s.worker.Finished? && Bad(row.status) && s.Safe())
  }

  ghost predicate StartupOk(s: Sys, recovered: bool) {
    s.worker.Finished? && s.facts.status.Terminal() && (recovered ==> Bad(s.facts.status))
  }

  /** The hold and its metadata go together, and a pending cleanup is always somebody's duty. */
  ghost predicate HoldMatchesMetadata(s: Sys) {
    && (s.facts.held ==> s.facts.pending)
    && (s.facts.pending ==> s.facts.held || s.facts.queue == Queued(true))
    && (s.facts.queue == Queued(true) ==> !s.facts.held)
  }

  ghost predicate Core(s: Sys) {
    && WorkerOk(s)
    && (s.facts.cancelRequested && s.facts.status.Terminal() ==> s.facts.status.Cancelled?)
    && (s.remote.NoRun? <==> !s.attempted)
    && (s.observed ==> s.remote.Ended?)
    && (s.attempted && !s.Safe() ==> s.facts.held)
    && (s.facts.confirmed ==> s.observed)
    && (s.RunKnown() ==> s.attempted && s.worker.PastCreate())
    && (s.observed ==> s.worker.PastCreate())
    && (s.facts.pending ==> s.kind.CodeGeneration? && !s.worker.NotStarted?)
    && (s.facts.queue.Queued? ==> s.Doomed() && s.worker.PastCreate())
    && (!s.kind.CodeGeneration? ==> !s.attempted && !s.facts.held)
    && (s.kind.Process? ==> s.facts.queue.NotQueued?)
    && (s.facts.status.Active() && s.workspace && (s.attempted || s.facts.queue.Queued?) ==> s.facts.pending)
    && (s.facts.status.Pending? ==> !s.workspace)
    && (s.facts.status.Succeeded? && s.kind.CodeGeneration? ==> s.observed)
    && (s.Preserving() && !s.kind.OtherManaged? && !s.Doomed() && s.worker.PastWorkspace() ==> s.workspace)
    && (s.facts.artifacts ==> s.facts.status.Succeeded? && Options(s).artifactsOnSuccess)
    && HoldMatchesMetadata(s)
    && (s.Lost() ==> s.unheld)
  }

  ghost predicate Inv(s: Sys) {
    Core(s) && forall i :: 0 <= i < |s.activities| ==> ActivityOk(s, s.activities[i])
  }

  /** What no step takes away. */
  ghost predicate Keeps(s: Sys, t: Sys) {
    && t.kind == s.kind
    && (s.worker.PastCreate() ==> t.worker.PastCreate())
    && (s.worker.Finished? ==> t.worker.Finished?)
    && (s.facts.cancelRequested ==> t.facts.cancelRequested)
    && (s.facts.status.Terminal() ==> t.facts.status == s.facts.status)
    && (s.facts.artifacts ==> t.facts.artifacts)
    && (s.Doomed() ==> t.Doomed())
    && (s.observed ==> t.observed)
    && (s.attempted ==> t.attempted)
    && (s.Preserved() && s.workspace ==> t.workspace)
    && (s.worker.PastCreate() && s.Safe() ==> t.Safe())
    && (s.worker.PastCreate() && !s.workspace ==> !t.workspace)
  }

  lemma ActivityOkStable(s: Sys, t: Sys, a: Activity)
    requires Keeps(s, t) && ActivityOk(s, a)
    ensures ActivityOk(t, a)
  {
  }

  lemma InitKeepsInv(s: Sys)
    requires Init(s)
    ensures Inv(s)
  {
  }

  lemma StartKeeps(s: Sys, t: Sys)
    requires Core(s) && WorkerSetUp(s, t)
    requires s.worker.NotStarted? || s.worker.Entered?
    ensures Core(t) && Keeps(s, t)
  {
  }

  lemma OrchestrateKeeps(s: Sys, t: Sys)
    requires Core(s) && WorkerSetUp(s, t)
    requires s.worker.Orchestrate?
    ensures Core(t) && Keeps(s, t)
  {
  }

  lemma PrepareKeeps(s: Sys, t: Sys)
    requires Core(s) && WorkerSetUp(s, t)
    requires s.worker.CreateWorkspace? || s.worker.Prepare?
    ensures Core(t) && Keeps(s, t)
  {
  }

  lemma HoldKeeps(s: Sys, t: Sys)
    requires Core(s) && WorkerSetUp(s, t)
    requires s.worker.HoldWorkspace? || s.worker.SendCreate?
    ensures Core(t) && Keeps(s, t)
  {
  }

  lemma CreateKeeps(s: Sys, t: Sys)
    requires Core(s) && WorkerSetUp(s, t)
    requires s.worker.AwaitCreate?
    ensures Core(t) && Keeps(s, t)
  {
  }

  /** Whatever goes wrong once the run id is known sends the worker to cancel the run. */
  lemma AbortsKeeps(s: Sys, t: Sys)
    requires Core(s) && Aborts(s, t)
    requires s.worker.RecordRun? || s.worker.Polling? || s.worker.MarkTerminal? || s.worker.SelfScan?
    ensures Core(t) && Keeps(s, t)
  {
  }

  lemma SetRunKeeps(s: Sys, t: Sys)
    requires Core(s) && WorkerRun(s, t)
    requires s.worker.SetRun?
    ensures Core(t) && Keeps(s, t)
  {
  }

  lemma RecordKeeps(s: Sys, t: Sys)
    requires Core(s) && WorkerRun(s, t)
    requires s.worker.RecordRun?
    ensures Core(t) && Keeps(s, t)
  {
    if Aborts(s, t) { AbortsKeeps(s, t); }
  }

  lemma PollKeeps(s: Sys, t: Sys)
    requires Core(s) && WorkerRun(s, t)
    requires s.worker.Polling? || s.worker.SelfScan?
    ensures Core(t) && Keeps(s, t)
  {
    if Aborts(s, t) { AbortsKeeps(s, t); }
  }

  lemma TerminalKeeps(s: Sys, t: Sys)
    requires Core(s) && WorkerRun(s, t)
    requires s.worker.MarkTerminal?
    ensures Core(t) && Keeps(s, t)
  {
    if Aborts(s, t) { AbortsKeeps(s, t); }
  }

  lemma CancelPollLeavesKeeps(s: Sys, t: Sys)
    requires Core(s) && Leaves(s, t)
    requires s.worker.CancelPoll?
    ensures Core(t) && Keeps(s, t)
  {
  }

  lemma AbortKeeps(s: Sys, t: Sys)
    requires Core(s) && WorkerRun(s, t)
    requires s.worker.CancelPoll?
    ensures Core(t) && Keeps(s, t)
  {
    if Leaves(s, t) { CancelPollLeavesKeeps(s, t); }
  }

  lemma ConfirmKeeps(s: Sys, t: Sys)
    requires Core(s) && WorkerRun(s, t)
    requires s.worker.CancelConfirm?
    ensures Core(t) && Keeps(s, t)
  {
  }

  lemma WorkerFinishKeeps(s: Sys, t: Sys)
    requires Core(s) && WorkerEnd(s, t)
    requires s.worker.Finish?
    ensures Core(t) && Keeps(s, t)
  {
  }

  lemma WorkerSweepKeeps(s: Sys, t: Sys)
    requires Core(s) && WorkerEnd(s, t)
    requires s.worker.Sweeping?
    ensures Core(t) && Keeps(s, t)
  {
  }

  lemma FinalSweepKeeps(s: Sys, t: Sys)
    requires Core(s) && WorkerEnd(s, t)
    requires s.worker.FinalSweep?
    ensures Core(t) && Keeps(s, t)
  {
  }

  lemma LeaveKeeps(s: Sys, t: Sys)
    requires Core(s) && WorkerEnd(s, t)
    requires s.worker.Leave?
    ensures Core(t) && Keeps(s, t)
  {
  }

  /** The store refused: the worker is over and nothing else changed. */
  lemma GiveUpKeeps(s: Sys, t: Sys)
    requires Core(s) && t == s.(worker := Finished)
    requires s.worker.Finalizing? || s.worker.ReleaseHold? || s.worker.ReadHold? || s.worker.ReadQueue?
    ensures Core(t) && Keeps(s, t)
  {
  }

  lemma SuccessKeeps(s: Sys, t: Sys)
    requires Core(s) && s.worker.Finalizing?
    requires FinalizesTo(s, t, s.worker.end, if s.Preserving() then ReleaseHold else ReadHold, ReadHold)
    requires t.facts.status.Succeeded?
    ensures Core(t) && Keeps(s, t)
  {
  }

  lemma FailureKeeps(s: Sys, t: Sys)
    requires Core(s) && s.worker.Finalizing?
    requires FinalizesTo(s, t, s.worker.end, if s.Preserving() then ReleaseHold else ReadHold, ReadHold)
    requires !t.facts.status.Succeeded?
    ensures Core(t) && Keeps(s, t)
  {
  }

  lemma FinalizeKeeps(s: Sys, t: Sys)
    requires Core(s) && WorkerEnd(s, t)
    requires s.worker.Finalizing?
    ensures Core(t) && Keeps(s, t)
  {
    if t == s.(worker := Finished) {
      GiveUpKeeps(s, t);
    } else if t.facts.status.Succeeded? {
      SuccessKeeps(s, t);
    } else {
      FailureKeeps(s, t);
    }
  }

  lemma ReleaseKeeps(s: Sys, t: Sys)
    requires Core(s) && WorkerEnd(s, t)
    requires s.worker.ReleaseHold?
    ensures Core(t) && Keeps(s, t)
  {
    if t == s.(worker := Finished) { GiveUpKeeps(s, t); }
  }

  lemma ReadKeeps(s: Sys, t: Sys)
    requires Core(s) && WorkerEnd(s, t)
    requires s.worker.ReadHold?
    ensures Core(t) && Keeps(s, t)
  {
    if t == s.(worker := Finished) { GiveUpKeeps(s, t); }
  }

  lemma ReadQueueKeeps(s: Sys, t: Sys)
    requires Core(s) && WorkerEnd(s, t)
    requires s.worker.ReadQueue?
    ensures Core(t) && Keeps(s, t)
  {
    if t == s.(worker := Finished) { GiveUpKeeps(s, t); }
  }

  lemma ProcessRunKeeps(s: Sys, t: Sys)
    requires Core(s) && ProcessStep(s, t)
    requires s.worker.ProcessWorkspace? || s.worker.ProcessRun?
    ensures Core(t) && Keeps(s, t)
  {
  }

  lemma ProcessFinalizeKeeps(s: Sys, t: Sys)
    requires Core(s) && ProcessStep(s, t)
    requires s.worker.ProcessFinalize?
    ensures Core(t) && Keeps(s, t)
  {
  }

  lemma ProcessCleanupKeeps(s: Sys, t: Sys)
    requires Core(s) && ProcessStep(s, t)
    requires s.worker.ProcessCleanup?
    ensures Core(t) && Keeps(s, t)
  {
  }

  lemma AskKeeps(s: Sys, a: Activity, t: Sys, b: Activity)
    requires Core(s) && ActivityOk(s, a) && ActivityMove(s, a, t, b)
    requires a.AskCancel? || a.LookUpRun? || a.Idle?
    ensures Core(t) && Keeps(s, t) && ActivityOk(t, b)
  {
  }

  lemma CancelPollKeeps(s: Sys, a: Activity, t: Sys, b: Activity)
    requires Core(s) && ActivityOk(s, a) && ActivityMove(s, a, t, b)
    requires a.PollForCancel?
    ensures Core(t) && Keeps(s, t) && ActivityOk(t, b)
  {
  }

  lemma CancelConfirmKeeps(s: Sys, a: Activity, t: Sys, b: Activity)
    requires Core(s) && ActivityOk(s, a) && ActivityMove(s, a, t, b)
    requires a.ConfirmCancel?
    ensures Core(t) && Keeps(s, t) && ActivityOk(t, b)
  {
  }

  lemma RetryReadKeeps(s: Sys, a: Activity, t: Sys, b: Activity)
    requires Core(s) && ActivityOk(s, a) && ActivityMove(s, a, t, b)
    requires a.ReadForRetry? || a.PollForRetry?
    ensures Core(t) && Keeps(s, t) && ActivityOk(t, b)
  {
  }

  lemma RetryConfirmKeeps(s: Sys, a: Activity, t: Sys, b: Activity)
    requires Core(s) && ActivityOk(s, a) && ActivityMove(s, a, t, b)
    requires a.ConfirmRetry? || a.RereadForRetry?
    ensures Core(t) && Keeps(s, t) && ActivityOk(t, b)
  {
  }

  lemma FinishCancelKeeps(s: Sys, a: Activity, t: Sys, b: Activity)
    requires Core(s) && ActivityOk(s, a) && ActivityMove(s, a, t, b)
    requires a.FinishCancel?
    ensures Core(t) && Keeps(s, t) && ActivityOk(t, b)
  {
  }

  lemma FinishRetryKeeps(s: Sys, a: Activity, t: Sys, b: Activity)
    requires Core(s) && ActivityOk(s, a) && ActivityMove(s, a, t, b)
    requires a.FinishRetry?
    ensures Core(t) && Keeps(s, t) && ActivityOk(t, b)
  {
  }

  lemma CheckHeldKeeps(s: Sys, facts: Facts, workspace: bool, next: Option<Sweep>)
    requires Core(s) && SweepOk(s, CheckHeld) && SweepStep(s, CheckHeld, facts, workspace, next)
    ensures facts == s.facts && workspace == s.workspace
    ensures next.Some? ==> SweepOk(s, next.value)
  {
  }

  lemma DeleteKeeps(s: Sys, t: Sys, next: Option<Sweep>)
    requires Core(s) && SweepOk(s, Delete) && SweepStep(s, Delete, t.facts, t.workspace, next)
    requires t == s.(facts := t.facts, workspace := t.workspace)
    ensures Core(t) && Keeps(s, t) && next.Some? && SweepOk(t, next.value)
  {
  }

  lemma CompleteKeeps(s: Sys, t: Sys)
    requires Core(s) && SweepOk(s, Complete)
    requires t == s.(facts := s.facts.CompleteCleanup())
    ensures Core(t) && Keeps(s, t)
  {
  }

  lemma MarkPendingKeeps(s: Sys, t: Sys)
    requires Core(s) && SweepOk(s, MarkPending)
    requires t == s.(facts := s.facts.MarkCleanup())
    ensures Core(t) && Keeps(s, t)
  {
  }

  /** One step of any sweep: only a workspace that is safe to delete goes, and its cleanup row only after it. */
  lemma SweepStepKeeps(s: Sys, stage: Sweep, t: Sys, next: Option<Sweep>)
    requires Core(s) && SweepOk(s, stage) && SweepStep(s, stage, t.facts, t.workspace, next)
    requires t == s.(facts := t.facts, workspace := t.workspace)
    ensures Core(t) && Keeps(s, t)
    ensures next.Some? ==> SweepOk(t, next.value)
  {
    match stage
    case CheckHeld => CheckHeldKeeps(s, t.facts, t.workspace, next); assert t == s;
    case Delete => DeleteKeeps(s, t, next);
    case Complete => if t.facts != s.facts { CompleteKeeps(s, t); } else { assert t == s; }
    case MarkPending => if t.facts != s.facts { MarkPendingKeeps(s, t); } else { assert t == s; }
  }

  lemma SweepKeeps(s: Sys, a: Activity, t: Sys, b: Activity)
    requires Core(s) && ActivityOk(s, a) && ActivityMove(s, a, t, b)
    requires a.SweepWorkspace?
    ensures Core(t) && Keeps(s, t) && ActivityOk(t, b)
  {
    if !(t == s && b.Idle?) {
      var next :|
        && SweepStep(s, a.stage, t.facts, t.workspace, next)
        && b == (if next.Some? then SweepWorkspace(next.value, a.resume)
                 else if a.resume.Some? then StartCheck(a.resume.value) else Idle);
      SweepStepKeeps(s, a.stage, t, next);
    }
  }

  lemma RecoverActiveKeeps(s: Sys, t: Sys)
    requires Core(s) && s.worker.Finished? && s.facts.status.Active()
    requires t == s.(facts := s.facts.Recover(), unheld := s.unheld || (s.Managed() && s.BeforeHold()))
    ensures Core(t) && Keeps(s, t) && Bad(t.facts.status)
  {
  }

  lemma RecoverKeeps(s: Sys, a: Activity, t: Sys, b: Activity)
    requires Core(s) && ActivityOk(s, a) && ActivityMove(s, a, t, b)
    requires a.StartRecover?
    ensures Core(t) && Keeps(s, t) && ActivityOk(t, b)
  {
    if t != s {
      RecoverActiveKeeps(s, t);
    }
  }

  lemma StartupKeeps(s: Sys, a: Activity, t: Sys, b: Activity)
    requires Core(s) && ActivityOk(s, a) && ActivityMove(s, a, t, b)
    requires a.StartList? || a.StartCheck? || a.StartDelete?
    ensures Core(t) && Keeps(s, t) && ActivityOk(t, b)
  {
  }

  lemma WorldKeeps(s: Sys, t: Sys)
    requires Core(s)
    requires (s.remote.Live? && t == s.(remote := Ended)) || t == s.(activities := t.activities)
    ensures Core(t) && Keeps(s, t)
  {
  }

  lemma CrashKeeps(s: Sys, t: Sys)
    requires Core(s) && Crash(s, t)
    ensures Core(t) && Keeps(s, t)
  {
  }

  // ---------------------------------------------------------------- putting the steps together

  lemma WorkerSetUpKeeps(s: Sys, t: Sys)
    requires Core(s) && WorkerSetUp(s, t)
    ensures Core(t) && Keeps(s, t) && t.activities == s.activities
  {
    match s.worker
    case NotStarted => StartKeeps(s, t);
    case Entered => StartKeeps(s, t);
    case Orchestrate => OrchestrateKeeps(s, t);
    case CreateWorkspace => PrepareKeeps(s, t);
    case Prepare => PrepareKeeps(s, t);
    case HoldWorkspace => HoldKeeps(s, t);
    case SendCreate => HoldKeeps(s, t);
    case AwaitCreate => CreateKeeps(s, t);
  }

  lemma WorkerRunKeeps(s: Sys, t: Sys)
    requires Core(s) && WorkerRun(s, t)
    ensures Core(t) && Keeps(s, t) && t.activities == s.activities
  {
    match s.worker
    case SetRun => SetRunKeeps(s, t);
    case RecordRun => RecordKeeps(s, t);
    case Polling => PollKeeps(s, t);
    case SelfScan => PollKeeps(s, t);
    case MarkTerminal(_) => TerminalKeeps(s, t);
    case CancelPoll(_) => AbortKeeps(s, t);
    case CancelConfirm(_) => ConfirmKeeps(s, t);
  }

  lemma WorkerEndKeeps(s: Sys, t: Sys)
    requires Core(s) && WorkerEnd(s, t)
    ensures Core(t) && Keeps(s, t) && t.activities == s.activities
  {
    match s.worker
    case Finish(_) => WorkerFinishKeeps(s, t);
    case Sweeping(_, _) => WorkerSweepKeeps(s, t);
    case Leave(_) => LeaveKeeps(s, t);
    case Finalizing(_) => FinalizeKeeps(s, t);
    case ReleaseHold => ReleaseKeeps(s, t);
    case ReadHold => ReadKeeps(s, t);
    case ReadQueue => ReadQueueKeeps(s, t);
    case FinalSweep(_) => FinalSweepKeeps(s, t);
  }

  lemma ProcessStepKeeps(s: Sys, t: Sys)
    requires Core(s) && ProcessStep(s, t)
    ensures Core(t) && Keeps(s, t) && t.activities == s.activities
  {
    match s.worker
    case ProcessWorkspace => ProcessRunKeeps(s, t);
    case ProcessRun => ProcessRunKeeps(s, t);
    case ProcessFinalize(_) => ProcessFinalizeKeeps(s, t);
    case ProcessCleanup => ProcessCleanupKeeps(s, t);
  }

  lemma ActivityMoveKeeps(s: Sys, a: Activity, t: Sys, b: Activity)
    requires Core(s) && ActivityOk(s, a) && ActivityMove(s, a, t, b)
    ensures Core(t) && Keeps(s, t) && ActivityOk(t, b)
  {
    match a
    case AskCancel => AskKeeps(s, a, t, b);
    case LookUpRun => AskKeeps(s, a, t, b);
    case Idle => AskKeeps(s, a, t, b);
    case PollForCancel => CancelPollKeeps(s, a, t, b);
    case ConfirmCancel => CancelConfirmKeeps(s, a, t, b);
    case FinishCancel => FinishCancelKeeps(s, a, t, b);
    case ReadForRetry => RetryReadKeeps(s, a, t, b);
    case PollForRetry => RetryReadKeeps(s, a, t, b);
    case ConfirmRetry => RetryConfirmKeeps(s, a, t, b);
    case RereadForRetry => RetryConfirmKeeps(s, a, t, b);
    case FinishRetry(_) => FinishRetryKeeps(s, a, t, b);
    case SweepWorkspace(_, _) => SweepKeeps(s, a, t, b);
    case StartRecover => RecoverKeeps(s, a, t, b);
    case StartList(_) => StartupKeeps(s, a, t, b);
    case StartCheck(_) => StartupKeeps(s, a, t, b);
    case StartDelete => StartupKeeps(s, a, t, b);
  }

  /** The invariant reads nothing of the other activities. */
  lemma CoreIgnoresActivities(s: Sys, activities: seq<Activity>)
    requires Core(s)
    ensures Core(s.(activities := activities)) && Keeps(s, s.(activities := activities))
  {
  }

  lemma KeepsTrans(a: Sys, b: Sys, c: Sys)
    requires Keeps(a, b) && Keeps(b, c)
    ensures Keeps(a, c)
  {
  }

  lemma ActivityStepKeeps(s: Sys, t: Sys, i: nat)
    requires Inv(s) && ActivityStep(s, t, i)
    ensures Inv(t) && Keeps(s, t)
  {
    var u, b := t.(activities := s.activities), t.activities[i];
    ActivityMoveKeeps(s, s.activities[i], u, b);
    CoreIgnoresActivities(u, t.activities);
    KeepsTrans(s, u, t);
    forall j | 0 <= j < |t.activities| ensures ActivityOk(t, t.activities[j]) {
      if j == i {
        ActivityOkStable(u, t, b);
      } else {
        ActivityOkStable(s, t, s.activities[j]);
      }
    }
  }

  lemma SpawnKeeps(s: Sys, t: Sys, a: Activity)
    requires Inv(s) && t == s.(activities := s.activities + [a]) && ActivityOk(t, a)
    ensures Inv(t) && Keeps(s, t)
  {
    CoreIgnoresActivities(s, t.activities);
    forall j | 0 <= j < |t.activities| ensures ActivityOk(t, t.activities[j]) {
      if j < |s.activities| {
        ActivityOkStable(s, t, s.activities[j]);
      }
    }
  }

  lemma SameActivitiesKeeps(s: Sys, t: Sys)
    requires Inv(s) && Core(t) && Keeps(s, t) && t.activities == s.activities
    ensures Inv(t)
  {
    forall j | 0 <= j < |t.activities| ensures ActivityOk(t, t.activities[j]) {
      ActivityOkStable(s, t, s.activities[j]);
    }
  }

  lemma WorldStepKeeps(s: Sys, t: Sys)
    requires Inv(s) && WorldStep(s, t)
    ensures Inv(t) && Keeps(s, t)
  {
    if t == s.(activities := s.activities + [AskCancel]) {
      SpawnKeeps(s, t, AskCancel);
    } else if t == s.(activities := s.activities + [ReadForRetry]) {
      SpawnKeeps(s, t, ReadForRetry);
    } else if Crash(s, t) {
      CrashKeeps(s, t);
    } else {
      WorldKeeps(s, t);
      SameActivitiesKeeps(s, t);
    }
  }

  lemma StepKeepsInv(s: Sys, t: Sys)
    requires Inv(s) && Step(s, t)
    ensures Inv(t) && Keeps(s, t)
  {
    if i :| ActivityStep(s, t, i) {
      ActivityStepKeeps(s, t, i);
    } else if WorldStep(s, t) {
      WorldStepKeeps(s, t);
    } else {
      if WorkerSetUp(s, t) { WorkerSetUpKeeps(s, t); }
      else if WorkerRun(s, t) { WorkerRunKeeps(s, t); }
      else if WorkerEnd(s, t) { WorkerEndKeeps(s, t); }
      else { ProcessStepKeeps(s, t); }
      SameActivitiesKeeps(s, t);
    }
  }

  lemma {:induction false} InvOverRun(run: seq<Sys>, i: nat)
    requires IsRun(run) && i < |run|
    ensures Inv(run[i])
  {
    if i == 0 {
      InitKeepsInv(run[0]);
    } else {
      InvOverRun(run, i - 1);
      StepKeepsInv(run[i - 1], run[i]);
    }
  }

  lemma {:induction false} KeepsChain(run: seq<Sys>, i: nat, j: nat)
    requires i <= j < |run|
    requires forall n :: i <= n < j ==> Keeps(run[n], run[n + 1])
    ensures Keeps(run[i], run[j])
    decreases j
  {
    if i < j {
      KeepsChain(run, i, j - 1);
      assert Keeps(run[j - 1], run[j - 1 + 1]);
      KeepsTrans(run[i], run[j - 1], run[j]);
    }
  }

  lemma StepOfRunKeeps(run: seq<Sys>, n: nat)
    requires IsRun(run) && n + 1 < |run|
    ensures Keeps(run[n], run[n + 1])
  {
    InvOverRun(run, n);
    StepKeepsInv(run[n], run[n + 1]);
  }

  /** The invariant holds in every state of every run, and nothing kept is ever taken away. */
  lemma RunKeepsInv(run: seq<Sys>, i: nat, j: nat)
    requires IsRun(run) && i <= j < |run|
    ensures Inv(run[i]) && Inv(run[j]) && Keeps(run[i], run[j])
  {
    InvOverRun(run, i);
    InvOverRun(run, j);
    forall n | i <= n < j ensures Keeps(run[n], run[n + 1]) {
      StepOfRunKeeps(run, n);
    }
    KeepsChain(run, i, j);
  }
}
