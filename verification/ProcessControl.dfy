/**
  Cancelling a task around the moment its subprocess is launched: the control object, and every
  interleaving of one worker with any number of cancel requests.
 */
module ProcessControl {
  import opened Wrappers

  datatype Control = Control(cancelRequested: bool, launching: bool, process: bool) {
    /** The new control, and whether the caller must cancel the worker. */
    function RequestCancel(): (Control, bool) {
      (this.(cancelRequested := true), !launching || process)
    }

    /** None when the launch is refused. */
    function BeginLaunch(storeFlag: bool): Option<Control> {
      if cancelRequested || storeFlag then None else Some(this.(launching := true))
    }

    function ProcessStarted(): (Control, bool) {
      (this.(process := true), cancelRequested)
    }

    function FinishLaunch(): Control { this.(launching := false, process := false) }
  }

  class ProcessTaskControl {
    var cancelRequested: bool
    var launching: bool
    var process: bool
    var loopOpen: bool
    var workerCancelled: bool

    function View(): Control
      reads this
    {
      Control(cancelRequested, launching, process)
    }

    constructor ()
      ensures View() == Control(false, false, false) && loopOpen && !workerCancelled
    {
      cancelRequested, launching, process, loopOpen, workerCancelled := false, false, false, true, false;
    }

    method RequestCancel()
      modifies this
      ensures View() == old(View()).RequestCancel().0
      ensures cancelRequested && launching == old(launching) && process == old(process)
      ensures workerCancelled == (old(workerCancelled) || (old(View()).RequestCancel().1 && loopOpen))
      ensures workerCancelled <==> old(workerCancelled) || (loopOpen && (launching ==> process))
      ensures loopOpen == old(loopOpen)
    {
      cancelRequested := true;
      var shouldCancelWorker := !launching || process;
      if shouldCancelWorker {
        CancelWorker();
      }
    }

    method BeginLaunch(isCancelled: bool) returns (launched: bool)
      modifies this`launching
      ensures launched == old(View()).BeginLaunch(isCancelled).Some?
      ensures View() == if launched then old(View()).BeginLaunch(isCancelled).value else old(View())
      ensures launched <==> !cancelRequested && !isCancelled
      ensures launching == (launched || old(launching))
    {
      if cancelRequested || isCancelled {
        return false;
      }
      launching := true;
      return true;
    }

    method ProcessStarted()
      modifies this
      ensures View() == old(View()).ProcessStarted().0
      ensures process && launching == old(launching) && cancelRequested == old(cancelRequested)
      ensures workerCancelled <==> old(workerCancelled) || (loopOpen && cancelRequested)
      ensures workerCancelled == (old(workerCancelled) || (old(View()).ProcessStarted().1 && loopOpen))
      ensures loopOpen == old(loopOpen)
    {
      process := true;
      var shouldCancelWorker := cancelRequested;
      if shouldCancelWorker {
        CancelWorker();
      }
    }

    method FinishLaunch()
      modifies this`launching, this`process
      ensures View() == old(View()).FinishLaunch()
      ensures !launching && !process
    {
      launching := false;
      process := false;
    }

    /** A closed event loop has no worker left to cancel. */
    method CancelWorker()
      modifies this`workerCancelled
      ensures workerCancelled == (old(workerCancelled) || loopOpen)
    {
      if loopOpen {
        workerCancelled := true;
      }
    }
  }

  // ---------------------------------------------------------------- the machine

  /** A cancel request: set the store flag, look the control up, decide under its lock, cancel outside it. */
  datatype Canceller = Asking | LookingUp | Deciding | CancellingWorker | Done(found: bool) | Refused

  /** The worker; it holds the control's lock while `Checked` and, with the flag it read, while `StoreRead`. */
  datatype Worker =
    Starting | Registered | Checked | StoreRead(flag: bool) | Launching | CancellingSelf | Running | Ended | Finalized | Torn
  {
    predicate HoldsLock() { Checked? || StoreRead? }
    /** It has not yet read that the store's flag is down. */
    predicate Uncleared() { Starting? || Registered? || Checked? || (StoreRead? && flag) }
    predicate Launched() { Launching? || CancellingSelf? || Running? }
    predicate Over() { Ended? || Finalized? }
  }

  datatype Sys = Sys(
    storeFlag: bool, control: Control, worker: Worker, cancelled: bool, cancellers: seq<Canceller>)

  ghost predicate Init(s: Sys) {
    s == Sys(false, Control(false, false, false), Starting, false, [])
  }

  ghost predicate WorkerStep(s: Sys, t: Sys) {
    match s.worker
    case Starting => t == s.(worker := Registered)
    case Registered =>
      || t == s.(worker := Ended)
      || t == s.(worker := if s.control.BeginLaunch(false).None? then Ended else Checked)
    case Checked => t == s.(worker := StoreRead(s.storeFlag))
    case StoreRead(flag) =>
      var launch := s.control.BeginLaunch(flag);
      t == if launch.None? then s.(worker := Ended) else s.(worker := Launching, control := launch.value)
    case Launching =>
      || (s.cancelled && t == s.(worker := Torn))
      || t == s.(worker := Ended, control := s.control.FinishLaunch())
      || t == s.(worker := if s.control.ProcessStarted().1 then CancellingSelf else Running,
                 control := s.control.ProcessStarted().0)
    case CancellingSelf => t == s.(worker := Running, cancelled := true)
    case Running => t == s.(worker := Ended, control := s.control.FinishLaunch())
    case Ended => t == s.(worker := Finalized)
    case Finalized => false
    case Torn => false
  }

  ghost predicate CancellerStep(s: Sys, t: Sys, i: nat) {
    && i < |s.cancellers|
    && match s.cancellers[i]
       case Asking =>
         if s.worker.Finalized? && !s.storeFlag then t == s.(cancellers := s.cancellers[i := Refused])
         else t == s.(storeFlag := true, cancellers := s.cancellers[i := LookingUp])
       case LookingUp =>
         t == s.(cancellers := s.cancellers[i := if s.worker.Starting? || s.worker.Over() then Done(false) else Deciding])
         || (s.worker.Ended? && t == s.(cancellers := s.cancellers[i := Deciding]))
       case Deciding =>
         && !s.worker.HoldsLock()
         && var r := s.control.RequestCancel();
            t == s.(control := r.0, cancellers := s.cancellers[i := if r.1 then CancellingWorker else Done(true)])
       case CancellingWorker => t == s.(cancelled := true, cancellers := s.cancellers[i := Done(true)])
       case Done(_) => false
       case Refused => false
  }

  ghost predicate Step(s: Sys, t: Sys) {
    || WorkerStep(s, t)
    || (exists i :: CancellerStep(s, t, i))
    || t == s.(cancellers := s.cancellers + [Asking])
  }

  ghost predicate IsRun(run: seq<Sys>) {
    && |run| > 0 && Init(run[0])
    && forall i :: 0 <= i < |run| - 1 ==> Step(run[i], run[i + 1])
  }

  // ---------------------------------------------------------------- what every interleaving keeps

  ghost predicate CancellerOk(s: Sys, c: Canceller) {
    && (c.LookingUp? || c.Deciding? || c.CancellingWorker? || c.Done? ==> s.storeFlag)
    && (c.CancellingWorker? || (c.Done? && c.found) ==> s.control.cancelRequested)
    && (c.CancellingWorker? ==> !s.worker.Launching? && !s.worker.Torn?)
    && (c.Done? && !c.found ==> s.worker.Uncleared() || s.worker.Over())
    && (c.Done? && c.found && s.worker.Running? ==> s.cancelled)
  }

  ghost predicate Core(s: Sys) {
    && (s.control.launching <==> s.worker.Launched())
    && (s.control.process <==> s.worker.CancellingSelf? || s.worker.Running?)
    && (s.cancelled ==> s.control.cancelRequested)
    && (s.worker.HoldsLock() ==> !s.control.cancelRequested)
    && (s.worker.Launching? ==> !s.cancelled)
    && (s.worker.CancellingSelf? ==> s.control.cancelRequested)
    && !s.worker.Torn?
  }

  ghost predicate Inv(s: Sys) {
    Core(s) && forall i :: 0 <= i < |s.cancellers| ==> CancellerOk(s, s.cancellers[i])
  }

  /** A request seen by the store before the worker reads its flag makes the launch impossible. */
  ghost predicate RefusalStays(s: Sys, t: Sys) {
    && (s.storeFlag ==> t.storeFlag)
    && (s.storeFlag && (s.worker.Uncleared() || s.worker.Over()) ==>
          t.worker.Uncleared() || t.worker.Over())
  }

  lemma WorkerKeeps(s: Sys, t: Sys)
    requires Inv(s) && WorkerStep(s, t)
    ensures Inv(t) && RefusalStays(s, t)
  {
    forall i | 0 <= i < |t.cancellers| ensures CancellerOk(t, t.cancellers[i]) {
      assert CancellerOk(s, s.cancellers[i]);
    }
  }

  lemma CancellerKeeps(s: Sys, t: Sys, i: nat)
    requires Inv(s) && CancellerStep(s, t, i)
    ensures Inv(t) && RefusalStays(s, t)
  {
    assert CancellerOk(s, s.cancellers[i]);
    forall j | 0 <= j < |t.cancellers| ensures CancellerOk(t, t.cancellers[j]) {
      assert CancellerOk(s, s.cancellers[j]);
    }
  }

  lemma StepKeepsInv(s: Sys, t: Sys)
    requires Inv(s) && Step(s, t)
    ensures Inv(t) && RefusalStays(s, t)
  {
    if WorkerStep(s, t) {
      WorkerKeeps(s, t);
    } else if exists i :: CancellerStep(s, t, i) {
      var i: nat :| CancellerStep(s, t, i);
      CancellerKeeps(s, t, i);
    } else {
      forall j | 0 <= j < |t.cancellers| ensures CancellerOk(t, t.cancellers[j]) {
        if j < |s.cancellers| { assert CancellerOk(s, s.cancellers[j]); }
      }
    }
  }

  lemma {:induction false} RunKeepsInv(run: seq<Sys>, i: nat, j: nat)
    requires IsRun(run) && i <= j < |run|
    ensures Inv(run[i]) && Inv(run[j]) && RefusalStays(run[i], run[j])
    decreases j, j - i
  {
    if j == 0 {
    } else if i == j {
      RunKeepsInv(run, j - 1, j - 1);
      StepKeepsInv(run[j - 1], run[j]);
    } else {
      RunKeepsInv(run, i, j - 1);
      StepKeepsInv(run[j - 1], run[j]);
    }
  }

  /** The worker is never cancelled between the start of a launch and the report of its process. */
  lemma LaunchIsNeverTorn(run: seq<Sys>, i: nat)
    requires IsRun(run) && i < |run|
    ensures run[i].worker.Launching? ==> !run[i].cancelled
    ensures !run[i].worker.Torn?
  {
    RunKeepsInv(run, i, i);
  }

  /**
    A cancel request that has returned is never lost: the launch will be refused, the process being
    launched will be cancelled as soon as it is reported, the running worker is cancelled, or the worker is over.
   */
  lemma CancelIsNeverLost(run: seq<Sys>, i: nat, c: nat)
    requires IsRun(run) && i < |run| && c < |run[i].cancellers| && run[i].cancellers[c].Done?
    ensures var s := run[i];
            || (s.storeFlag && s.worker.Uncleared())
            || (s.worker.Launching? && s.control.cancelRequested)
            || s.worker.CancellingSelf?
            || (s.worker.Running? && s.cancelled)
            || s.worker.Over()
  {
    RunKeepsInv(run, i, i);
    assert CancellerOk(run[i], run[i].cancellers[c]);
  }

  /** Once the store carries the flag and the worker has not read it, no process is ever launched. */
  lemma FlaggedTaskIsNeverLaunched(run: seq<Sys>, i: nat, j: nat)
    requires IsRun(run) && i <= j < |run|
    requires run[i].storeFlag && run[i].worker.Uncleared()
    ensures !run[j].worker.Launched()
  {
    RunKeepsInv(run, i, j);
  }

  /** Holding the lock, the worker launches if and only if the flag it read was down, and otherwise it is over. */
  lemma LaunchesExactlyUnflagged(run: seq<Sys>, i: nat)
    requires IsRun(run) && i + 1 < |run| && run[i].worker.StoreRead? && run[i + 1].worker != run[i].worker
    ensures run[i + 1].worker == if run[i].worker.flag then Ended else Launching
    ensures run[i + 1].control == Control(false, !run[i].worker.flag, false)
  {
    RunKeepsInv(run, i, i);
  }

  /** When the process of a requested launch is reported, the worker's next step cancels it. */
  lemma ReportedProcessIsCancelled(run: seq<Sys>, i: nat)
    requires IsRun(run) && i + 1 < |run| && run[i].worker.Launching? && run[i].control.cancelRequested
    ensures run[i + 1].worker.Running? ==> run[i + 1].cancelled
    ensures run[i].worker != run[i + 1].worker ==> run[i + 1].worker.CancellingSelf? || run[i + 1].worker.Over()
  {
    RunKeepsInv(run, i, i);
    RunKeepsInv(run, i, i + 1);
    var s, t := run[i], run[i + 1];
    if exists k :: CancellerStep(s, t, k) {
      var k: nat :| CancellerStep(s, t, k);
    }
  }
}
