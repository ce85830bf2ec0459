/**
  The store over its four tables. One transaction is one method, specified by what it does to the
  entry of its task (module TaskEntries); every other task's entry is left alone.
 */
module TaskStore {
  import opened Wrappers
  import opened TaskEntries

  type TaskId = nat

  datatype StoreError = StoreClosed | NotFound | InvalidValue

  class TaskStore {
    var tasks: map<TaskId, Row>
    var holds: set<TaskId>
    var cleanups: map<TaskId, Metadata>
    var artifacts: set<TaskId>
    var closed: bool

    constructor ()
      ensures tasks == map[] && holds == {} && cleanups == map[] && artifacts == {} && !closed
    {
      tasks, holds, cleanups, artifacts, closed := map[], {}, map[], {}, false;
    }

    function View(id: TaskId): Entry
      requires id in tasks
      reads this
    {
      Entry(tasks[id], id in holds, if id in cleanups then Some(cleanups[id]) else None, id in artifacts)
    }

    predicate Accepts(id: TaskId)
      reads this
    {
      !closed && id in tasks
    }

    function Refusal(): StoreError
      reads this
    {
      if closed then StoreClosed else NotFound
    }

    /** Only the entry of `id` may differ. */
    twostate predicate OnlyTouches(id: TaskId)
      reads this
    {
      && closed == old(closed)
      && tasks.Keys == old(tasks.Keys)
      && forall j :: j in tasks && j != id ==> View(j) == old(View(j))
    }

    /** Insertion of a fresh id, the only way `save` is used. */
    method Save(id: TaskId, command: seq<string>, metadata: Metadata) returns (r: Result<(), StoreError>)
      requires id !in tasks && id !in holds && id !in cleanups && id !in artifacts
      modifies this
      ensures old(closed) ==> r == Err(StoreClosed) && unchanged(this)
      ensures !old(closed) ==>
        && r == Ok(()) && !closed && tasks.Keys == old(tasks.Keys) + {id}
        && View(id) == Entry(Row(Status.Pending, false, 0, "{}", None, None, None, command, metadata, 0), false, None, false)
        && forall j :: j in old(tasks) ==> View(j) == old(View(j))
    {
      if closed { return Err(StoreClosed); }
      tasks := tasks[id := Row(Pending, false, 0, "{}", None, None, None, command, metadata, 0)];
      return Ok(());
    }

    method Require(id: TaskId) returns (r: Result<Row, StoreError>)
      ensures r == if Accepts(id) then Ok(tasks[id]) else Err(Refusal())
      ensures r == if closed then Err(StoreClosed) else if id !in tasks then Err(NotFound) else Ok(tasks[id])
    {
      if closed { return Err(StoreClosed); }
      if id !in tasks { return Err(NotFound); }
      return Ok(tasks[id]);
    }

    method TryStart(id: TaskId) returns (r: Result<bool, StoreError>)
      modifies this
      ensures !old(Accepts(id)) ==> r == Err(old(Refusal())) && unchanged(this)
      ensures old(Accepts(id)) ==>
        && OnlyTouches(id)
        && View(id) == old(View(id)).TryStart().0
        && r == Ok(old(View(id)).TryStart().1)
    {
      if closed { return Err(StoreClosed); }
      if id !in tasks { return Err(NotFound); }
      var row := tasks[id];
      if !row.status.Pending? || row.cancelRequested { return Ok(false); }
      tasks := tasks[id := row.(status := Running, revision := row.revision + 1)];
      return Ok(true);
    }

    method RequestCancelWithTransition(id: TaskId) returns (r: Result<(Row, bool), StoreError>)
      modifies this
      ensures !old(Accepts(id)) ==> r == Err(old(Refusal())) && unchanged(this)
      ensures old(Accepts(id)) ==>
        && OnlyTouches(id)
        && View(id) == old(View(id)).RequestCancel().0
        && r == Ok((View(id).row, old(View(id)).RequestCancel().1))
    {
      if closed { return Err(StoreClosed); }
      if id !in tasks { return Err(NotFound); }
      var row := tasks[id];
      if row.cancelRequested || !row.status.Active() { return Ok((row, false)); }
      if row.status.Pending? {
        row := row.(status := Cancelled, error := Some("cancelled"));
      }
      row := row.(cancelRequested := true, revision := row.revision + 1);
      tasks := tasks[id := row];
      return Ok((row, true));
    }

    method UpdateProgress(id: TaskId, progress: int) returns (r: Result<Row, StoreError>)
      modifies this
      ensures !(0 <= progress <= 100) ==> r == Err(InvalidValue) && unchanged(this)
      ensures 0 <= progress <= 100 && !old(Accepts(id)) ==> r == Err(old(Refusal())) && unchanged(this)
      ensures 0 <= progress <= 100 && old(Accepts(id)) ==>
        && OnlyTouches(id)
        && View(id) == old(View(id)).UpdateProgress(progress)
        && r == Ok(View(id).row)
    {
      if progress < 0 || progress > 100 { return Err(InvalidValue); }
      if closed { return Err(StoreClosed); }
      if id !in tasks { return Err(NotFound); }
      var row := tasks[id];
      if row.status.Running? && !row.cancelRequested && row.progress <= progress {
        tasks := tasks[id := row.(progress := progress, revision := row.revision + 1)];
      }
      return Ok(tasks[id]);
    }

    method UpdateCommandIfRunning(id: TaskId, command: seq<string>) returns (r: Result<Option<Row>, StoreError>)
      modifies this
      ensures !old(Accepts(id)) ==> r == Err(old(Refusal())) && unchanged(this)
      ensures old(Accepts(id)) ==>
        && OnlyTouches(id)
        && View(id) == old(View(id)).UpdateCommand(command).0
        && r == Ok(if old(View(id)).UpdateCommand(command).1 then Some(View(id).row) else None)
    {
      if closed { return Err(StoreClosed); }
      if id !in tasks { return Err(NotFound); }
      var row := tasks[id];
      if !row.status.Running? || row.cancelRequested { return Ok(None); }
      row := row.(command := command, revision := row.revision + 1);
      tasks := tasks[id := row];
      return Ok(Some(row));
    }

    method MergeMetadata(id: TaskId, updates: Metadata) returns (r: Result<Row, StoreError>)
      modifies this
      ensures !old(Accepts(id)) ==> r == Err(old(Refusal())) && unchanged(this)
      ensures old(Accepts(id)) ==>
        && OnlyTouches(id)
        && View(id) == old(View(id)).MergeMetadata(updates)
        && r == Ok(View(id).row)
    {
      if closed { return Err(StoreClosed); }
      if id !in tasks { return Err(NotFound); }
      PatchRow(id, updates);
      return Ok(tasks[id]);
    }

    method PatchRow(id: TaskId, updates: Metadata)
      requires id in tasks
      modifies this`tasks
      ensures tasks == old(tasks)[id := old(View(id)).MergeMetadata(updates).row]
    {
      var row := tasks[id];
      tasks := tasks[id := row.(metadata := Patch(row.metadata, updates), revision := row.revision + 1)];
    }

    method MarkWorkspaceCleanupPending(id: TaskId) returns (r: Result<(), StoreError>)
      modifies this
      ensures !old(Accepts(id)) ==> r == Err(old(Refusal())) && unchanged(this)
      ensures old(Accepts(id)) ==>
        r == Ok(()) && OnlyTouches(id) && View(id) == old(View(id)).MarkCleanupPending()
    {
      if closed { return Err(StoreClosed); }
      if id !in tasks { return Err(NotFound); }
      if id !in cleanups { cleanups := cleanups[id := map[]]; }
      return Ok(());
    }

    method HoldWorkspaces(id: TaskId, updates: Option<Metadata>) returns (r: Result<Row, StoreError>)
      modifies this
      ensures !old(Accepts(id)) ==> r == Err(old(Refusal())) && unchanged(this)
      ensures old(Accepts(id)) ==>
        && OnlyTouches(id)
        && View(id) == old(View(id)).Hold(updates)
        && r == Ok(View(id).row)
    {
      if closed { return Err(StoreClosed); }
      if id !in tasks { return Err(NotFound); }
      if updates.Some? { PatchRow(id, updates.value); }
      holds := holds + {id};
      return Ok(tasks[id]);
    }

    method ReleaseWorkspaces(id: TaskId, updates: Option<Metadata>) returns (r: Result<Row, StoreError>)
      modifies this
      ensures !old(Accepts(id)) ==> r == Err(old(Refusal())) && unchanged(this)
      ensures old(Accepts(id)) ==>
        && OnlyTouches(id)
        && View(id) == old(View(id)).Release(updates)
        && r == Ok(View(id).row)
    {
      if closed { return Err(StoreClosed); }
      if id !in tasks { return Err(NotFound); }
      if updates.Some? { PatchRow(id, updates.value); }
      holds := holds - {id};
      return Ok(tasks[id]);
    }

    method QueueWorkspaceCleanupAndReleaseHold(id: TaskId, completion: Metadata) returns (r: Result<Row, StoreError>)
      modifies this
      ensures !old(Accepts(id)) ==> r == Err(old(Refusal())) && unchanged(this)
      ensures old(Accepts(id)) ==>
        && OnlyTouches(id)
        && View(id) == old(View(id)).QueueCleanupAndRelease(completion)
        && r == Ok(View(id).row)
    {
      if closed { return Err(StoreClosed); }
      if id !in tasks { return Err(NotFound); }
      if id in cleanups {
        cleanups := cleanups[id := Patch(cleanups[id], completion)];
      } else {
        cleanups := cleanups[id := completion];
      }
      holds := holds - {id};
      return Ok(tasks[id]);
    }

    method CompleteWorkspaceCleanup(id: TaskId) returns (r: Result<Row, StoreError>)
      modifies this
      ensures !old(Accepts(id)) ==> r == Err(old(Refusal())) && unchanged(this)
      ensures old(Accepts(id)) ==>
        && OnlyTouches(id)
        && View(id) == old(View(id)).CompleteCleanup()
        && r == Ok(View(id).row)
    {
      if closed { return Err(StoreClosed); }
      if id !in tasks { return Err(NotFound); }
      if id in cleanups {
        if cleanups[id] != map[] { PatchRow(id, cleanups[id]); }
        cleanups := cleanups - {id};
      }
      return Ok(tasks[id]);
    }

    method FinalizeWithTransition(id: TaskId, outcome: Outcome, opts: FinalizeOptions)
      returns (r: Result<(Row, bool), StoreError>)
      modifies this
      ensures !outcome.status.Terminal() ==> r == Err(InvalidValue) && unchanged(this)
      ensures outcome.status.Terminal() && !old(Accepts(id)) ==> r == Err(old(Refusal())) && unchanged(this)
      ensures outcome.status.Terminal() && old(Accepts(id)) ==>
        && OnlyTouches(id)
        && View(id) == old(View(id)).Finalize(outcome, opts).0
        && r == Ok((View(id).row, old(View(id)).Finalize(outcome, opts).1))
      ensures r.Ok? && old(tasks[id]).status == Running && !old(tasks[id]).cancelRequested && !outcome.status.Cancelled? ==>
        tasks[id] == old(tasks[id]).(
          status := outcome.status, result := outcome.result, error := outcome.error, exitCode := outcome.exitCode,
          elapsedMs := outcome.elapsedMs, revision := old(tasks[id]).revision + 1,
          progress := if old(tasks[id]).progress <= outcome.progress then outcome.progress else old(tasks[id]).progress)
      ensures r.Ok? && old(tasks[id]).status == Running && (old(tasks[id]).cancelRequested || outcome.status.Cancelled?) ==>
        tasks[id] == old(tasks[id]).(
          status := Cancelled, error := Some("cancelled"), revision := old(tasks[id]).revision + 1,
          elapsedMs := if outcome.elapsedMs == None then old(tasks[id]).elapsedMs else outcome.elapsedMs)
    {
      if !outcome.status.Terminal() { return Err(InvalidValue); }
      if closed { return Err(StoreClosed); }
      if id !in tasks { return Err(NotFound); }
      var row := tasks[id];
      if !row.status.Running? { return Ok((row, false)); }
      row := FinalRow(row, outcome);
      tasks := tasks[id := row];
      if opts.artifactsOnSuccess && row.status.Succeeded? {
        artifacts := artifacts + {id};
      }
      if opts.queueCleanup && !(row.status.Succeeded? && opts.preserveOnSuccess) {
        if id !in holds && id !in cleanups { cleanups := cleanups[id := map[]]; }
      }
      return Ok((row, true));
    }

    static method FinalRow(before: Row, outcome: Outcome) returns (row: Row)
      ensures row == before.Finalized(outcome)
    {
      row := before.(revision := before.revision + 1);
      if row.cancelRequested || outcome.status.Cancelled? {
        row := row.(status := Cancelled, error := Some("cancelled"));
        if outcome.elapsedMs.Some? { row := row.(elapsedMs := outcome.elapsedMs); }
      } else {
        row := row.(status := outcome.status, exitCode := outcome.exitCode, elapsedMs := outcome.elapsedMs,
                    result := outcome.result, error := outcome.error);
        if row.progress < outcome.progress { row := row.(progress := outcome.progress); }
      }
    }

    /** Terminalizes every task a previous process left active. */
    method RecoverInterruptedTasks() returns (r: Result<set<TaskId>, StoreError>)
      modifies this
      ensures old(closed) ==> r == Err(StoreClosed) && unchanged(this)
      ensures !old(closed) ==>
        && !closed && tasks.Keys == old(tasks.Keys)
        && r.Ok? && (forall id :: id in r.value <==> id in old(tasks) && old(tasks)[id].status.Active())
        && forall id :: id in tasks ==> View(id) == old(View(id)).Recover()
    {
      if closed { return Err(StoreClosed); }
      var active := set id | id in tasks && tasks[id].status.Active();
      tasks := map id | id in tasks ::
        if id !in active then tasks[id]
        else if tasks[id].cancelRequested then
          tasks[id].(status := Cancelled, error := Some("cancelled"), revision := tasks[id].revision + 1)
        else
          tasks[id].(status := Failed, error := Some("interrupted by process restart"),
                     revision := tasks[id].revision + 1);
      return Ok(active);
    }

    method WorkspacesAreHeld(id: TaskId) returns (r: Result<bool, StoreError>)
      ensures r == if closed then Err(StoreClosed) else Ok(id in holds)
    {
      if closed { return Err(StoreClosed); }
      return Ok(id in holds);
    }

    method ListWorkspaceCleanupPending() returns (r: Result<set<TaskId>, StoreError>)
      ensures r == if closed then Err(StoreClosed) else Ok(cleanups.Keys)
    {
      if closed { return Err(StoreClosed); }
      return Ok(cleanups.Keys);
    }

    method Close()
      modifies this`closed
      ensures closed
    {
      closed := true;
    }
  }
}
