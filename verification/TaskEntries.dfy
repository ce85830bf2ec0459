/**
  What the task store keeps about one task, and what each of its transactions does to it:
  the task row, the workspace hold, the queued workspace cleanup and the artifact mark.
 */
module TaskEntries {
  import opened Wrappers

  datatype Status = Pending | Running | Succeeded | Failed | Cancelled {
    predicate Terminal() { Succeeded? || Failed? || Cancelled? }
    predicate Active() { Pending? || Running? }
  }

  datatype Json = JsonNull | JsonBool(b: bool) | JsonString(s: string)

  /** Metadata keys: the three that decide about workspaces, and any other name. */
  datatype Key = CleanupPending | NaturalccRunId | NaturalccTerminalConfirmed | OtherKey(name: string)

  type Metadata = map<Key, Json>

  /** A flat merge patch: a null removes the key, anything else sets it. */
  function Patch(m: Metadata, updates: Metadata): Metadata {
    map k | k in m.Keys + updates.Keys && (k in updates ==> updates[k] != JsonNull) ::
      if k in updates then updates[k] else m[k]
  }

  datatype Row = Row(
    status: Status, cancelRequested: bool, progress: nat, result: string, error: Option<string>,
    exitCode: Option<int>, elapsedMs: Option<nat>, command: seq<string>, metadata: Metadata,
    revision: nat)
  {
    function Bump(): Row { this.(revision := revision + 1) }

    function Finalized(o: Outcome): Row {
      if cancelRequested || o.status.Cancelled? then
        Bump().(status := Cancelled, error := Some("cancelled"),
                elapsedMs := if o.elapsedMs.Some? then o.elapsedMs else elapsedMs)
      else
        Bump().(status := o.status, exitCode := o.exitCode, elapsedMs := o.elapsedMs,
                progress := if progress < o.progress then o.progress else progress,
                result := o.result, error := o.error)
    }
  }

  /** What a worker asks to record when it ends. */
  datatype Outcome = Outcome(
    status: Status, progress: nat, result: string, error: Option<string>,
    exitCode: Option<int>, elapsedMs: Option<nat>)

  /** The three switches a worker finalizes with. */
  datatype FinalizeOptions = FinalizeOptions(
    artifactsOnSuccess: bool, queueCleanup: bool, preserveOnSuccess: bool)

  datatype Entry = Entry(row: Row, held: bool, cleanup: Option<Metadata>, artifacts: bool) {
    function TryStart(): (Entry, bool) {
      if row.status.Pending? && !row.cancelRequested
      then (this.(row := row.Bump().(status := Running)), true)
      else (this, false)
    }

    function RequestCancel(): (Entry, bool) {
      if row.status.Active() && !row.cancelRequested then
        var r := row.Bump().(cancelRequested := true);
        (this.(row := if r.status.Pending? then r.(status := Cancelled, error := Some("cancelled")) else r),
         true)
      else (this, false)
    }

    function UpdateProgress(progress: nat): Entry {
      if row.status.Running? && !row.cancelRequested && row.progress <= progress
      then this.(row := row.Bump().(progress := progress))
      else this
    }

    function UpdateCommand(command: seq<string>): (Entry, bool) {
      if row.status.Running? && !row.cancelRequested
      then (this.(row := row.Bump().(command := command)), true)
      else (this, false)
    }

    function MergeMetadata(updates: Metadata): Entry {
      this.(row := row.Bump().(metadata := Patch(row.metadata, updates)))
    }

    function MergeIfGiven(updates: Option<Metadata>): Entry {
      if updates.Some? then MergeMetadata(updates.value) else this
    }

    function Hold(updates: Option<Metadata>): Entry {
      MergeIfGiven(updates).(held := true)
    }

    function Release(updates: Option<Metadata>): Entry {
      MergeIfGiven(updates).(held := false)
    }

    function MarkCleanupPending(): Entry {
      this.(cleanup := if cleanup.None? then Some(map[]) else cleanup)
    }

    function ClearCleanupPending(): Entry {
      this.(cleanup := None)
    }

    function QueueCleanupAndRelease(completion: Metadata): Entry {
      this.(cleanup := Some(if cleanup.None? then completion else Patch(cleanup.value, completion)),
            held := false)
    }

    function CompleteCleanup(): Entry {
      if cleanup.None? then this
      else if cleanup.value == map[] then this.(cleanup := None)
      else MergeMetadata(cleanup.value).(cleanup := None)
    }

    /** Terminalize a running task; artifact and cleanup rows are written in the same transaction. */
    function Finalize(o: Outcome, opts: FinalizeOptions): (Entry, bool) {
      if !row.status.Running? then (this, false)
      else
        var f := this.(row := row.Finalized(o));
        var g := if opts.artifactsOnSuccess && f.row.status.Succeeded? then f.(artifacts := true) else f;
        (if opts.queueCleanup && !(g.row.status.Succeeded? && opts.preserveOnSuccess) && !g.held
         then g.MarkCleanupPending() else g, true)
    }

    function Recover(): Entry {
      if row.status.Active() then
        this.(row := row.Bump().(
                status := if row.cancelRequested then Cancelled else Failed,
                error := Some(if row.cancelRequested then "cancelled" else "interrupted by process restart")))
      else this
    }
  }

  // ---------------------------------------------------------------- runs of one task

  datatype StoreOp =
    | OpTryStart
    | OpRequestCancel
    | OpUpdateProgress(progress: nat)
    | OpUpdateCommand(command: seq<string>)
    | OpMergeMetadata(updates: Metadata)
    | OpHold(holdUpdates: Option<Metadata>)
    | OpRelease(releaseUpdates: Option<Metadata>)
    | OpMarkCleanupPending
    | OpClearCleanupPending
    | OpQueueCleanupAndRelease(completion: Metadata)
    | OpCompleteCleanup
    | OpFinalize(outcome: Outcome, opts: FinalizeOptions)
    | OpRecover
  {
    /** Finalization refuses a status that is not terminal. */
    predicate Valid() { OpFinalize? ==> outcome.status.Terminal() }
  }

  function Apply(e: Entry, op: StoreOp): Entry {
    match op
    case OpTryStart => e.TryStart().0
    case OpRequestCancel => e.RequestCancel().0
    case OpUpdateProgress(progress) => e.UpdateProgress(progress)
    case OpUpdateCommand(command) => e.UpdateCommand(command).0
    case OpMergeMetadata(updates) => e.MergeMetadata(updates)
    case OpHold(updates) => e.Hold(updates)
    case OpRelease(updates) => e.Release(updates)
    case OpMarkCleanupPending => e.MarkCleanupPending()
    case OpClearCleanupPending => e.ClearCleanupPending()
    case OpQueueCleanupAndRelease(completion) => e.QueueCleanupAndRelease(completion)
    case OpCompleteCleanup => e.CompleteCleanup()
    case OpFinalize(outcome, opts) => e.Finalize(outcome, opts).0
    case OpRecover => e.Recover()
  }

  ghost predicate ValidOps(ops: seq<StoreOp>) {
    forall i :: 0 <= i < |ops| ==> ops[i].Valid()
  }

  function Run(e: Entry, ops: seq<StoreOp>): Entry
    decreases |ops|
  {
    if |ops| == 0 then e else Run(Apply(e, ops[0]), ops[1..])
  }

  /** How many `try_start` calls of the run are told they won. */
  function StartsWon(e: Entry, ops: seq<StoreOp>): nat
    decreases |ops|
  {
    if |ops| == 0 then 0
    else (if ops[0].OpTryStart? && e.TryStart().1 then 1 else 0) + StartsWon(Apply(e, ops[0]), ops[1..])
  }

  /** How many steps of the run enter a terminal status. */
  function TerminalEntries(e: Entry, ops: seq<StoreOp>): nat
    decreases |ops|
  {
    if |ops| == 0 then 0
    else
      var next := Apply(e, ops[0]);
      (if !e.row.status.Terminal() && next.row.status.Terminal() then 1 else 0) + TerminalEntries(next, ops[1..])
  }

  /** A requested cancel never ends in anything but CANCELLED. */
  ghost predicate CancelHonoured(r: Row) {
    r.cancelRequested && r.status.Terminal() ==> r.status.Cancelled?
  }

  /** What no operation may undo, whatever runs in between. */
  ghost predicate Advances(a: Entry, b: Entry) {
    && a.row.progress <= b.row.progress
    && a.row.revision <= b.row.revision
    && (a.row != b.row ==> a.row.revision < b.row.revision)
    && (a.row.cancelRequested ==> b.row.cancelRequested)
    && (!a.row.status.Pending? ==> !b.row.status.Pending?)
    && (a.artifacts ==> b.artifacts)
    && (a.row.status.Terminal() ==>
          && b.row.status == a.row.status && b.row.result == a.row.result && b.row.error == a.row.error
          && b.row.exitCode == a.row.exitCode && b.row.elapsedMs == a.row.elapsedMs
          && b.row.command == a.row.command && b.row.cancelRequested == a.row.cancelRequested
          && b.row.progress == a.row.progress && b.artifacts == a.artifacts)
    && (a.row.cancelRequested ==> b.row.result == a.row.result && b.row.exitCode == a.row.exitCode)
  }

  lemma StepAdvances(e: Entry, op: StoreOp)
    requires op.Valid()
    ensures Advances(e, Apply(e, op))
    ensures CancelHonoured(e.row) ==> CancelHonoured(Apply(e, op).row)
    ensures (e.artifacts ==> e.row.status.Succeeded?) ==>
            (Apply(e, op).artifacts ==> Apply(e, op).row.status.Succeeded?)
  {
  }

  /**
    Over any run: progress and revision never fall and every change of the row raises the revision;
    a terminal status, its result and its artifact mark are final; the cancel flag is never lowered,
    and once it is raised the result and exit code stay what they were.
   */
  lemma {:induction false} RunAdvances(e: Entry, ops: seq<StoreOp>)
    requires ValidOps(ops)
    ensures Advances(e, Run(e, ops))
    ensures CancelHonoured(e.row) ==> CancelHonoured(Run(e, ops).row)
    ensures (e.artifacts ==> e.row.status.Succeeded?) ==>
            (Run(e, ops).artifacts ==> Run(e, ops).row.status.Succeeded?)
    decreases |ops|
  {
    if |ops| > 0 {
      StepAdvances(e, ops[0]);
      RunAdvances(Apply(e, ops[0]), ops[1..]);
    }
  }

  /** From a fresh task at most one start wins, none if the task has already left PENDING. */
  lemma {:induction false} AtMostOneStartWins(e: Entry, ops: seq<StoreOp>)
    requires ValidOps(ops)
    ensures StartsWon(e, ops) <= if e.row.status.Pending? then 1 else 0
    decreases |ops|
  {
    if |ops| > 0 {
      StepAdvances(e, ops[0]);
      AtMostOneStartWins(Apply(e, ops[0]), ops[1..]);
    }
  }

  /** A run enters a terminal status exactly when it ends in one it did not begin in, and then once. */
  lemma {:induction false} TerminalEnteredOnce(e: Entry, ops: seq<StoreOp>)
    requires ValidOps(ops)
    ensures TerminalEntries(e, ops) ==
            if !e.row.status.Terminal() && Run(e, ops).row.status.Terminal() then 1 else 0
    decreases |ops|
  {
    if |ops| > 0 {
      var next := Apply(e, ops[0]);
      StepAdvances(e, ops[0]);
      RunAdvances(next, ops[1..]);
      TerminalEnteredOnce(next, ops[1..]);
    }
  }

  /** A cancel requested before finalization forces CANCELLED and keeps the old result. */
  lemma CancelBeatsFinalization(e: Entry, before: seq<StoreOp>, o: Outcome, opts: FinalizeOptions)
    requires ValidOps(before) && o.status.Terminal()
    requires e.row.status.Running?
    requires var c := Run(e.RequestCancel().0, before); c.row.status.Running?
    ensures var c := Run(e.RequestCancel().0, before);
            var f := c.Finalize(o, opts);
            && f.1 && f.0.row.status.Cancelled? && f.0.artifacts == c.artifacts
            && f.0.row.result == e.row.result && f.0.row.exitCode == e.row.exitCode
            && f.0.row.error == Some("cancelled") && f.0.row.progress >= e.row.progress
  {
    RunAdvances(e.RequestCancel().0, before);
  }

  // ---------------------------------------------------------------- field by field

  /** A flat merge patch, key by key: a null removes, anything else sets, what is not named stays. */
  lemma PatchKeyByKey(m: Metadata, updates: Metadata, k: Key)
    ensures k in updates && updates[k] == JsonNull ==> k !in Patch(m, updates)
    ensures k in updates && updates[k] != JsonNull ==> k in Patch(m, updates) && Patch(m, updates)[k] == updates[k]
    ensures k !in updates && k in m ==> k in Patch(m, updates) && Patch(m, updates)[k] == m[k]
    ensures k !in updates && k !in m ==> k !in Patch(m, updates)
  {
  }

  /** Patching twice with the same updates is patching once. */
  lemma PatchIsIdempotent(m: Metadata, updates: Metadata)
    ensures Patch(Patch(m, updates), updates) == Patch(m, updates)
  {
  }

  /** Which operation moves the status, and where to; nothing else ever moves it. */
  lemma StatusMoves(e: Entry, op: StoreOp)
    ensures Apply(e, op).row.status ==
            if op.OpTryStart? && e.row.status == Pending && !e.row.cancelRequested then Running
            else if op.OpRequestCancel? && e.row.status == Pending && !e.row.cancelRequested then Cancelled
            else if op.OpFinalize? && e.row.status == Running then
              (if e.row.cancelRequested then Cancelled else op.outcome.status)
            else if op.OpRecover? && (e.row.status == Pending || e.row.status == Running) then
              (if e.row.cancelRequested then Cancelled else Failed)
            else e.row.status
  {
  }

  /** The cancel flag is raised by a request to an active task. */
  lemma FlagMoves(e: Entry, op: StoreOp)
    ensures Apply(e, op).row.cancelRequested ==
            (e.row.cancelRequested || (op.OpRequestCancel? && (e.row.status == Pending || e.row.status == Running)))
  {
  }

  /** Who is told that the start was won, that the cancel request was the first, that the command was taken. */
  lemma CallersAreTold(e: Entry, command: seq<string>)
    ensures e.TryStart().1 <==> e.row.status == Pending && !e.row.cancelRequested
    ensures e.RequestCancel().1 <==> (e.row.status == Pending || e.row.status == Running) && !e.row.cancelRequested
    ensures e.UpdateCommand(command).1 <==> e.row.status == Running && !e.row.cancelRequested
  {
  }

  /** Progress and command. */
  lemma ProgressMoves(e: Entry, op: StoreOp)
    ensures var live := e.row.status == Running && !e.row.cancelRequested;
            && Apply(e, op).row.progress == (
                 if op.OpUpdateProgress? && live && e.row.progress <= op.progress then op.progress
                 else if op.OpFinalize? && live && op.outcome.status != Cancelled && e.row.progress <= op.outcome.progress
                 then op.outcome.progress
                 else e.row.progress)
            && Apply(e, op).row.command == (if op.OpUpdateCommand? && live then op.command else e.row.command)
  {
  }

  /** Result, exit code, elapsed time and error of an operation that is not a finalization. */
  lemma OutcomeStays(e: Entry, op: StoreOp)
    requires !op.OpFinalize?
    ensures var r := Apply(e, op).row;
            && r.result == e.row.result && r.exitCode == e.row.exitCode && r.elapsedMs == e.row.elapsedMs
            && r.error == (
                 if r.status == Cancelled && e.row.status != Cancelled then Some("cancelled")
                 else if r.status == Failed && e.row.status != Failed then Some("interrupted by process restart")
                 else e.row.error)
  {
  }

  /** The same fields at a finalization, whose outcome counts if the task is running and no cancel was asked for. */
  lemma OutcomeMoves(e: Entry, o: Outcome, opts: FinalizeOptions)
    ensures var (f, told) := e.Finalize(o, opts);
            var ends := e.row.status == Running;
            var counts := ends && !e.row.cancelRequested && o.status != Cancelled;
            && told == ends
            && f.row.result == (if counts then o.result else e.row.result)
            && f.row.exitCode == (if counts then o.exitCode else e.row.exitCode)
            && f.row.elapsedMs == (if counts || (ends && o.elapsedMs != None) then o.elapsedMs else e.row.elapsedMs)
            && f.row.error == (if counts then o.error else if ends then Some("cancelled") else e.row.error)
            && f.row.revision == (if ends then e.row.revision + 1 else e.row.revision)
  {
  }

  /** The metadata and the revision of the row. */
  lemma MetadataMoves(e: Entry, op: StoreOp)
    ensures var updates :=
              if op.OpMergeMetadata? then Some(op.updates) else if op.OpHold? then op.holdUpdates
              else if op.OpRelease? then op.releaseUpdates
              else if op.OpCompleteCleanup? && e.cleanup != Some(map[]) then e.cleanup else None;
            && Apply(e, op).row.metadata == (if updates.Some? then Patch(e.row.metadata, updates.value) else e.row.metadata)
            && (updates.Some? ==> Apply(e, op).row.revision == e.row.revision + 1)
            && Apply(e, op).row.revision <= e.row.revision + 1
  {
  }

  /** Hold, queued cleanup and artifact mark. */
  lemma WorkspaceMoves(e: Entry, op: StoreOp)
    ensures var f := Apply(e, op);
            var ends := op.OpFinalize? && e.row.status == Running;
            && f.held == (op.OpHold? || (e.held && !op.OpRelease? && !op.OpQueueCleanupAndRelease?))
            && f.artifacts == (e.artifacts || (ends && op.opts.artifactsOnSuccess && f.row.status == Succeeded))
            && f.cleanup == (
                 if op.OpClearCleanupPending? || op.OpCompleteCleanup? then None
                 else if op.OpQueueCleanupAndRelease? then
                   Some(if e.cleanup == None then op.completion else Patch(e.cleanup.value, op.completion))
                 else if e.cleanup == None
                      && (op.OpMarkCleanupPending?
                          || (ends && op.opts.queueCleanup && !e.held
                              && !(f.row.status == Succeeded && op.opts.preserveOnSuccess)))
                 then Some(map[])
                 else e.cleanup)
  {
  }

  lemma {:induction false} RunSplits(e: Entry, before: seq<StoreOp>, op: StoreOp, after: seq<StoreOp>)
    ensures Run(e, before + [op] + after) == Run(Apply(Run(e, before), op), after)
    decreases |before|
  {
    if |before| == 0 {
      assert ([op] + after)[1..] == after;
      assert before + [op] + after == [op] + after;
    } else {
      assert (before + [op] + after)[1..] == before[1..] + [op] + after;
      RunSplits(Apply(e, before[0]), before[1..], op, after);
    }
  }

  /**
    What a worker reports is what the store keeps: whatever ran before and whatever runs after, a finalization of a
    running task nobody has asked to cancel leaves exactly its status, result, error, exit code and elapsed time.
   */
  lemma OutcomeIsKept(e: Entry, before: seq<StoreOp>, o: Outcome, opts: FinalizeOptions, after: seq<StoreOp>)
    requires ValidOps(after) && (o.status == Succeeded || o.status == Failed)
    requires Run(e, before).row.status == Running && !Run(e, before).row.cancelRequested
    ensures var was, r := Run(e, before).row, Run(e, before + [OpFinalize(o, opts)] + after).row;
            && r.status == o.status && r.result == o.result && r.error == o.error
            && r.exitCode == o.exitCode && r.elapsedMs == o.elapsedMs
            && r.progress == (if was.progress < o.progress then o.progress else was.progress)
            && r.command == was.command && !r.cancelRequested
    ensures opts.artifactsOnSuccess && o.status == Succeeded ==>
              Run(e, before + [OpFinalize(o, opts)] + after).artifacts
  {
    var c := Apply(Run(e, before), OpFinalize(o, opts));
    RunSplits(e, before, OpFinalize(o, opts), after);
    RunAdvances(c, after);
  }

  /** What operation `op` on `c` leaves for good in the row when it ends the task. */
  ghost predicate EndsAs(c: Entry, op: StoreOp, r: Row) {
    var asked := c.row.cancelRequested || op.OpRequestCancel? || (op.OpFinalize? && op.outcome.status == Cancelled);
    && (c.row.status == Running || (c.row.status == Pending && (op.OpRequestCancel? || op.OpRecover?)))
    && (op.OpFinalize? || op.OpRecover? || (op.OpRequestCancel? && c.row.status == Pending))
    && r.status == (if asked then Cancelled else if op.OpFinalize? then op.outcome.status else Failed)
    && r.error == (if asked then Some("cancelled")
                   else if op.OpFinalize? then op.outcome.error else Some("interrupted by process restart"))
    && r.result == (if op.OpFinalize? && !asked then op.outcome.result else c.row.result)
    && r.exitCode == (if op.OpFinalize? && !asked then op.outcome.exitCode else c.row.exitCode)
  }

  lemma EndStep(c: Entry, op: StoreOp)
    requires op.Valid() && !c.row.status.Terminal() && Apply(c, op).row.status.Terminal()
    ensures EndsAs(c, op, Apply(c, op).row)
  {
  }

  lemma EndLasts(c: Entry, op: StoreOp, r: Row, later: Row)
    requires EndsAs(c, op, r)
    requires later.status == r.status && later.error == r.error && later.result == r.result && later.exitCode == r.exitCode
    ensures EndsAs(c, op, later)
  {
  }

  /** Every terminal row of every run says how it ended: by which operation, and with exactly what that one asked for. */
  lemma {:induction false} EveryEndHasItsCause(e: Entry, ops: seq<StoreOp>) returns (i: nat)
    requires ValidOps(ops) && !e.row.status.Terminal() && Run(e, ops).row.status.Terminal()
    ensures i < |ops| && EndsAs(Run(e, ops[..i]), ops[i], Run(e, ops).row)
    decreases |ops|
  {
    hide Apply, EndsAs;
    var next := Apply(e, ops[0]);
    if next.row.status.Terminal() {
      i := 0;
      RunAdvances(next, ops[1..]);
      EndStep(e, ops[0]);
      EndLasts(e, ops[0], next.row, Run(e, ops).row);
      assert Run(e, ops[..0]) == e;
    } else {
      var j := EveryEndHasItsCause(next, ops[1..]);
      i := j + 1;
      assert ops[..i][1..] == ops[1..][..j];
    }
  }
}
