/**
  The promises about workspaces, over every run of module TaskLifecycle: a workspace is deleted only when no remote
  run can be writing to it, a preserved success keeps it, and the workspace of every other finished managed task is
  accounted for, unless startup recovery ended the task between create_workspace and the hold.
 */
module TaskLifecycleSafety {
  import opened Wrappers
  import opened TaskEntries
  import opened TaskLifecycle
  import opened TaskLifecycleProofs

  /**
    Whatever step makes a workspace disappear, and whoever takes it: create_run was never attempted, was refused,
    or the remote run had been observed in a terminal status.
   */
  lemma OnlySafeWorkspacesAreDeleted(run: seq<Sys>, i: nat)
    requires IsRun(run) && i + 1 < |run| && run[i].workspace && !run[i + 1].workspace
    ensures !run[i].attempted || run[i].remote.Rejected? || run[i].observed
    ensures run[i].worker.PastCreate()
  {
    InvOverRun(run, i);
    DeletionsAreSafe(run[i], run[i + 1]);
  }

  lemma SetUpDeletesNothing(s: Sys, t: Sys)
    requires Core(s) && (WorkerSetUp(s, t) || WorkerRun(s, t)) && s.workspace
    ensures t.workspace
  {
  }

  lemma WorkersDeleteSafely(s: Sys, t: Sys)
    requires Core(s) && WorkerStep(s, t) && s.workspace && !t.workspace
    ensures s.Safe() && s.worker.PastCreate()
  {
    if WorkerSetUp(s, t) || WorkerRun(s, t) {
      SetUpDeletesNothing(s, t);
    } else if WorkerEnd(s, t) {
      match s.worker
      case Sweeping(_, _) =>
      case FinalSweep(_) =>
      case _ => assert false;
    } else {
      assert s.worker.ProcessCleanup?;
    }
  }

  lemma ActivitiesDeleteSafely(s: Sys, a: Activity, t: Sys, b: Activity)
    requires ActivityOk(s, a) && ActivityMove(s, a, t, b) && s.workspace && !t.workspace
    ensures s.Safe() && s.worker.PastCreate()
  {
    match a
    case SweepWorkspace(_, _) =>
    case StartDelete =>
    case _ => assert false;
  }

  lemma DeletionsAreSafe(s: Sys, t: Sys)
    requires Inv(s) && Step(s, t) && s.workspace && !t.workspace
    ensures s.Safe() && s.worker.PastCreate()
  {
    if WorkerStep(s, t) {
      WorkersDeleteSafely(s, t);
    } else {
      assert !WorldStep(s, t);
      var i: nat :| ActivityStep(s, t, i);
      ActivitiesDeleteSafely(s, s.activities[i], t.(activities := s.activities), t.activities[i]);
    }
  }

  /** From the deletion on, no remote run is alive and none is started again. */
  lemma NobodyWritesIntoADeletedWorkspace(run: seq<Sys>, i: nat, j: nat)
    requires IsRun(run) && i < j < |run| && run[i].workspace && !run[i + 1].workspace
    ensures !run[j].remote.Live? && !run[j].workspace
  {
    hide IsRun, Step;
    OnlySafeWorkspacesAreDeleted(run, i);
    RunKeepsInv(run, i, i + 1);
    RunKeepsInv(run, i + 1, j);
  }

  /** A task with an artifact row has succeeded and keeps both, for ever; if success preserves, it keeps its workspace too. */
  lemma ArtifactsSurvive(run: seq<Sys>, i: nat, j: nat)
    requires IsRun(run) && i <= j < |run| && run[i].facts.artifacts
    ensures run[j].facts.artifacts && run[j].facts.status.Succeeded?
    ensures run[i].kind.CodeGeneration? || run[i].kind.Process? ==> run[i].workspace && run[j].workspace
    ensures run[i].Preserving() && run[i].workspace ==> run[j].workspace
  {
    RunKeepsInv(run, i, j);
  }

  /** So does any successful task whose workspace success preserves, from a workspace it had at the end. */
  lemma PreservedWorkspacesSurvive(run: seq<Sys>, i: nat, j: nat)
    requires IsRun(run) && i <= j < |run| && run[i].Preserved()
    ensures run[j].Preserved()
    ensures !run[i].kind.OtherManaged? ==> run[i].workspace
    ensures run[i].workspace ==> run[j].workspace
  {
    RunKeepsInv(run, i, j);
  }

  /** A success is recorded only after the remote run was seen to end. */
  lemma SuccessWasObserved(run: seq<Sys>, i: nat)
    requires IsRun(run) && i < |run| && run[i].kind.CodeGeneration? && run[i].facts.status.Succeeded?
    ensures run[i].observed && run[i].remote.Ended?
  {
    InvOverRun(run, i);
  }

  /** Held implies cleanup_pending, and cleanup_pending implies held or queued with the clearing metadata. */
  lemma HoldAndPendingGoTogether(run: seq<Sys>, i: nat)
    requires IsRun(run) && i < |run|
    ensures run[i].facts.held ==> run[i].facts.pending
    ensures run[i].facts.pending ==> run[i].facts.held != (run[i].facts.queue == Queued(true))
  {
    InvOverRun(run, i);
  }

  // ---------------------------------------------------------------- finished tasks and their workspaces

  /** While a managed task is active, its workspace is accounted for exactly if its hold was recorded. */
  lemma HeldExactlyWhenPending(run: seq<Sys>, i: nat)
    requires IsRun(run) && i < |run| && run[i].Managed() && run[i].facts.status.Active() && run[i].workspace
    ensures run[i].Accounted() <==> run[i].facts.pending
  {
    InvOverRun(run, i);
  }

  /** The startup pass ends an active managed task whose workspace was created and not yet held. */
  ghost predicate RecoversUnheld(s: Sys, t: Sys) {
    && s.Managed() && s.facts.status.Active() && s.BeforeHold()
    && exists i: nat :: ActivityStep(s, t, i) && s.activities[i].StartRecover? && t.facts == s.facts.Recover()
  }

  lemma RecoveryLoses(s: Sys, t: Sys)
    requires Inv(s) && RecoversUnheld(s, t)
    ensures t.Lost() && t.unheld
  {
  }

  lemma WorkersMarkNothing(s: Sys, t: Sys)
    requires WorkerSetUp(s, t) || WorkerRun(s, t)
    ensures t.unheld == s.unheld
  {
  }

  lemma EndsMarkNothing(s: Sys, t: Sys)
    requires WorkerEnd(s, t)
    ensures t.unheld == s.unheld
  {
    hide SweepStep;
  }

  lemma OthersMarkNothing(s: Sys, t: Sys)
    requires ProcessStep(s, t) || WorldStep(s, t)
    ensures t.unheld == s.unheld
  {
  }

  lemma MoveMarksTheUnheld(s: Sys, a: Activity, t: Sys, b: Activity)
    requires ActivityMove(s, a, t, b) && t.unheld && !s.unheld
    ensures a.StartRecover? && t.facts == s.facts.Recover() && s.Managed() && s.facts.status.Active() && s.BeforeHold()
  {
  }

  lemma MarksTheUnheld(s: Sys, t: Sys)
    requires Step(s, t) && t.unheld && !s.unheld
    ensures RecoversUnheld(s, t)
  {
    hide ActivityMove, WorldStep, WorkerSetUp, WorkerRun, WorkerEnd, ProcessStep;
    if i: nat :| ActivityStep(s, t, i) {
      MoveMarksTheUnheld(s, s.activities[i], t.(activities := s.activities), t.activities[i]);
    } else if WorkerSetUp(s, t) || WorkerRun(s, t) {
      WorkersMarkNothing(s, t);
    } else if WorkerEnd(s, t) {
      EndsMarkNothing(s, t);
    } else {
      OthersMarkNothing(s, t);
    }
  }

  lemma {:induction false} UnheldWasRecovered(run: seq<Sys>, i: nat) returns (n: nat)
    requires IsRun(run) && i < |run| && run[i].unheld
    ensures n < i && RecoversUnheld(run[n], run[n + 1])
  {
    hide Step, RecoversUnheld;
    if run[i - 1].unheld {
      n := UnheldWasRecovered(run, i - 1);
    } else {
      n := i - 1;
      MarksTheUnheld(run[n], run[n + 1]);
    }
  }

  /**
    At every crash point after a managed task ended, unless it is a preserved success, its workspace is held, queued for
    cleanup or gone, if startup recovery has not ended the task between create_workspace and the hold.
   */
  lemma FinalizedWorkspacesAreAccountedFor(run: seq<Sys>, i: nat)
    requires IsRun(run) && i < |run| && run[i].Managed() && run[i].facts.status.Terminal() && !run[i].Preserved()
    requires forall n :: 0 <= n < i ==> !RecoversUnheld(run[n], run[n + 1])
    ensures run[i].Accounted()
  {
    hide Step, RecoversUnheld;
    InvOverRun(run, i);
    if run[i].unheld {
      var n := UnheldWasRecovered(run, i);
    }
  }

  /** And that recovery is exactly what loses a workspace: it is lost in some state of a run if and only if it happens. */
  lemma LostExactlyByUnheldRecovery(run: seq<Sys>)
    requires IsRun(run)
    ensures (exists i :: 0 <= i < |run| && run[i].Lost()) <==>
            (exists n :: 0 <= n < |run| - 1 && RecoversUnheld(run[n], run[n + 1]))
  {
    hide Step, RecoversUnheld;
    if i :| 0 <= i < |run| && run[i].Lost() {
      InvOverRun(run, i);
      var n := UnheldWasRecovered(run, i);
    }
    if n :| 0 <= n < |run| - 1 && RecoversUnheld(run[n], run[n + 1]) {
      InvOverRun(run, n);
      RecoveryLoses(run[n], run[n + 1]);
    }
  }

  // ---------------------------------------------------------------- a double crash, and exactly when it bites

  /** Crash, recover at startup, and crash again before the deletion. */
  function CrashedTwice(s: Sys): (t: seq<Sys>) {
    var active := s.facts.status.Active();
    var crashed := s.(worker := Finished, runInMemory := false, activities := [StartRecover]);
    var recovered := crashed.(facts := s.facts.Recover(), unheld := s.unheld || (active && s.Managed() && s.BeforeHold()),
                              activities := [StartList(active)]);
    [crashed, recovered, recovered.(activities := [StartRecover])]
  }

  lemma {:induction false} DoubleCrashIsARun(run: seq<Sys>)
    requires IsRun(run)
    ensures IsRun(run + CrashedTwice(run[|run| - 1]))
  {
    var s := run[|run| - 1];
    var tail := CrashedTwice(s);
    var more := run + tail;
    assert Crash(s, tail[0]);
    assert ActivityMove(tail[0], StartRecover, tail[1].(activities := tail[0].activities), tail[1].activities[0]);
    assert tail[1].activities == tail[0].activities[0 := tail[1].activities[0]];
    assert ActivityStep(tail[0], tail[1], 0);
    assert Crash(tail[1], tail[2]);
    forall i | 0 <= i < |more| - 1 ensures Step(more[i], more[i + 1]) {
      if i < |run| - 1 {
        assert more[i] == run[i] && more[i + 1] == run[i + 1];
      } else {
        assert more[i + 1] == tail[i + 1 - |run|];
      }
    }
  }

  /**
    Two crashes in a row lose an active managed task's workspace if and only if the first one came after
    create_workspace and before the hold was recorded.
   */
  lemma DoubleCrashLosesExactlyTheUnheld(run: seq<Sys>)
    requires IsRun(run) && run[|run| - 1].Managed() && run[|run| - 1].facts.status.Active()
    ensures CrashedTwice(run[|run| - 1])[2].Lost() <==> run[|run| - 1].BeforeHold()
  {
    InvOverRun(run, |run| - 1);
  }

  function Fresh(kind: Kind): Sys {
    Sys(kind, Facts(Status.Pending, false, false, NotQueued, false, false, false, false),
        false, false, NoRun, false, false, NotStarted, [], false)
  }

  /** Such a run exists: a crash after the workspace was created and before it was held. */
  lemma AWorkspaceCanBeLost() returns (run: seq<Sys>)
    ensures IsRun(run) && run[|run| - 1].kind.CodeGeneration? && run[|run| - 1].Lost()
  {
    var s0 := Fresh(CodeGeneration);
    var s1 := s0.(facts := s0.facts.TryStart(), worker := Entered);
    var s2 := s1.(worker := CreateWorkspace);
    var s3 := s2.(worker := Prepare, workspace := true);
    assert WorkerSetUp(s0, s1) && WorkerSetUp(s1, s2) && WorkerSetUp(s2, s3);
    var start := [s0, s1, s2, s3];
    assert IsRun(start);
    DoubleCrashIsARun(start);
    DoubleCrashLosesExactlyTheUnheld(start);
    run := start + CrashedTwice(s3);
    assert run[|run| - 1] == CrashedTwice(s3)[2];
  }

  /** A successful task that publishes artifacts and does not preserve its workspace. */
  lemma APublishingSuccess() returns (run: seq<Sys>)
    ensures IsRun(run) && run[0].kind == OtherManaged(false, true)
    ensures var t := run[|run| - 1];
            t == Fresh(OtherManaged(false, true)).(
              facts := Facts(Succeeded, false, false, Queued(false), true, false, false, false), workspace := true, worker := ReadHold)
  {
    var s0 := Fresh(OtherManaged(false, true));
    var s1 := s0.(facts := s0.facts.TryStart(), worker := Entered);
    var s2 := s1.(worker := Orchestrate);
    var s3 := s2.(workspace := true);
    var s4 := s3.(worker := Finalizing(Succeeded));
    var s5 := s4.(facts := s4.facts.Finalize(Succeeded, Options(s4)), worker := ReadHold);
    assert WorkerSetUp(s0, s1) && WorkerSetUp(s1, s2) && WorkerSetUp(s2, s3) && WorkerSetUp(s3, s4);
    assert WorkerEnd(s4, s5);
    run := [s0, s1, s2, s3, s4, s5];
  }

  /** The last sweep of the worker, from its reading of the hold to the deletion. */
  lemma LastSweepDeletes(s: Sys) returns (t: Sys, tail: seq<Sys>)
    requires s.worker.ReadHold? && !s.facts.held && s.facts.queue.Queued?
    ensures |tail| == 5 && tail[0] == s && tail[4] == t && forall i :: 0 <= i < 4 ==> Step(tail[i], tail[i + 1])
    ensures t == s.(worker := FinalSweep(Complete), workspace := false)
  {
    hide WorkerSetUp, WorkerRun, ProcessStep, WorldStep, ActivityStep;
    var queue, check := s.(worker := ReadQueue), s.(worker := FinalSweep(CheckHeld));
    var delete := s.(worker := FinalSweep(Delete));
    t := s.(worker := FinalSweep(Complete), workspace := false);
    assert SweepStep(check, CheckHeld, delete.facts, delete.workspace, Some(Delete));
    assert SweepStep(delete, Delete, t.facts, t.workspace, Some(Complete));
    tail := [s, queue, check, delete, t];
    assert WorkerEnd(s, queue) && WorkerEnd(queue, check) && WorkerEnd(check, delete) && WorkerEnd(delete, t);
  }

  /** Published artifacts without preservation do not keep the workspace: the sweep after a success deletes it. */
  lemma UnpreservedArtifactsCanBeDeleted() returns (run: seq<Sys>, i: nat)
    ensures IsRun(run) && i < |run| && run[0].kind == OtherManaged(false, true)
    ensures run[i].facts.artifacts && run[i].workspace
    ensures run[|run| - 1].facts.artifacts && !run[|run| - 1].workspace
  {
    hide Step;
    var start := APublishingSuccess();
    i := |start| - 1;
    var t, tail := LastSweepDeletes(start[i]);
    run := start + tail[1..];
    assert run[i] == start[i] && run[0] == start[0] && run[|run| - 1] == t;
    forall n | 0 <= n < |run| - 1 ensures Step(run[n], run[n + 1]) {
      if n < i {
        assert run[n] == start[n] && run[n + 1] == start[n + 1];
      } else {
        assert run[n] == tail[n - i] && run[n + 1] == tail[n - i + 1];
      }
    }
  }
}
