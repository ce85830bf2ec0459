/**
  Every interleaving of commands, their time-outs, the reader, the GDB process and close in one GDB/MI session.
 */
module GdbSessionRuns {
  import opened Wrappers
  import opened MiText
  import opened MiParser
  import opened MiRoundTrip
  import opened MiRecords
  import opened GdbSession

  datatype Reader = NotStarted | Reading | Gone(cause: Cause) {
    /** It ended by a fault or with the transport, not because close cancelled it. */
    predicate Ended() { Gone? && !cause.ReaderCancelled? }
  }

  /** One call of `_execute`: its command is being sent, it waits for its future, or it is over. */
  datatype Call = Sending | Waiting | Over

  datatype Sys = Sys(session: Session, returncode: Option<int>, reader: Reader, calls: map<nat, Call>)

  ghost predicate Init(s: Sys) { s == Sys(NewSession(), None, NotStarted, map[]) }

  ghost predicate CallStep(s: Sys, t: Sys, k: nat) {
    && k in s.calls && k in s.session.futures
    && match s.calls[k]
       case Sending =>
         || t == s.(calls := s.calls[k := Waiting])
         || t == s.(calls := s.calls[k := Over], session := s.session.Withdraw(k))
       case Waiting =>
         || (s.session.futures[k].Open? && t == s.(calls := s.calls[k := Over], session := s.session.Withdraw(k)))
         || t == s.(calls := s.calls[k := Over])
       case Over => false
  }

  ghost predicate BeginStep(s: Sys, t: Sys) {
    var (session, r) := s.session.Begin(s.returncode);
    t == s.(session := session, calls := if r.Registered? then s.calls[r.token := Sending] else s.calls)
  }

  ghost predicate RecordStep(s: Sys, t: Sys, record: MiRecord) {
    s.reader.Reading? && t == s.(session := s.session.HandleRecord(record))
  }

  /** A return code the transport reports is the code of its process. */
  ghost predicate ReaderEndStep(s: Sys, t: Sys, cause: Cause) {
    && s.reader.Reading?
    && (cause.TransportClosed? && cause.returncode.Some? ==> s.returncode == cause.returncode)
    && t == s.(session := s.session.ReaderEnds(cause), reader := Gone(cause))
  }

  ghost predicate LifeStep(s: Sys, t: Sys) {
    || (!s.session.started && !s.session.closed && t == s.(session := s.session.(started := true), reader := Reading))
    || (s.session.started && s.session.ready.Open? && t == s.(session := s.session.SetState(Failed)))
    || (s.returncode.None? && t.returncode.Some? && t == s.(returncode := t.returncode))
    || (!s.session.closed && !s.session.closing && t == s.(session := s.session.(closing := true)))
    || (s.session.closing && !s.session.closed && !s.reader.Reading? && t == s.(session := s.session.CloseEnds()))
  }

  ghost predicate Step(s: Sys, t: Sys) {
    || (exists k :: CallStep(s, t, k))
    || BeginStep(s, t)
    || (exists record :: RecordStep(s, t, record))
    || (exists cause :: ReaderEndStep(s, t, cause))
    || LifeStep(s, t)
  }

  ghost predicate IsRun(run: seq<Sys>) {
    && |run| > 0 && Init(run[0])
    && forall i :: 0 <= i < |run| - 1 ==> Step(run[i], run[i + 1])
  }

  // ---------------------------------------------------------------- the invariant

  ghost predicate FutureOk(s: Sys, k: nat)
    requires k in s.session.futures && k in s.calls
  {
    var f := s.session.futures[k];
    && k < s.session.nextToken
    && (f.Reply? ==> f.record.kind.Result? && f.record.token == Some(k))
    && (f.Withdrawn? ==> s.calls[k].Over?)
    && (f.Open? ==> k in s.session.pending)
    && (k in s.session.pending ==> f.Open?)
  }

  ghost predicate Inv(s: Sys) {
    && (s.session.stopEvent <==> s.session.state.StopsWaiting())
    && (s.reader.Reading? ==> s.session.started && !s.session.closed)
    && (s.reader.NotStarted? <==> !s.session.started)
    && s.session.pending <= s.session.futures.Keys
    && s.calls.Keys == s.session.futures.Keys
    && forall k <- s.session.futures :: FutureOk(s, k)
  }

  /** What completed a future, if this step did; one that is complete never changes. */
  ghost predicate Completes(s: Sys, t: Sys, k: nat)
    requires k in s.session.futures && k in t.session.futures && k in t.calls
  {
    var before, after := s.session.futures[k], t.session.futures[k];
    before == after
    || (before.Open? && match after
        case Open => true
        case Reply(r) => r.kind.Result? && r.token == Some(k) && RecordStep(s, t, r)
        case ReaderFailed => s.reader.Reading? && t.reader.Ended()
        case Withdrawn => CallStep(s, t, k) && t.calls[k].Over?)
  }

  ghost predicate Keeps(s: Sys, t: Sys) {
    && (s.returncode.Some? ==> t.returncode == s.returncode)
    && s.session.nextToken <= t.session.nextToken
    && forall k <- s.session.futures :: k in t.session.futures && k in t.calls && Completes(s, t, k)
  }

  lemma CallKeepsOthers(s: Sys, t: Sys, k: nat, j: nat)
    requires CallStep(s, t, k) && j != k && j in s.session.futures && j in s.calls && FutureOk(s, j)
    ensures j in t.session.futures && j in t.calls && FutureOk(t, j) && Completes(s, t, j)
  {
    hide RecordStep;
  }

  lemma CallKeepsItsOwn(s: Sys, t: Sys, k: nat)
    requires CallStep(s, t, k) && FutureOk(s, k)
    ensures k in t.session.futures && k in t.calls && FutureOk(t, k) && Completes(s, t, k)
  {
    hide RecordStep;
  }

  lemma CallKeeps(s: Sys, t: Sys, k: nat)
    requires Inv(s) && CallStep(s, t, k)
    ensures Inv(t) && Keeps(s, t)
  {
    hide FutureOk, Completes;
    forall j | j in s.session.futures ensures j in t.session.futures && j in t.calls && FutureOk(t, j) && Completes(s, t, j) {
      assert FutureOk(s, j);
      if j == k { CallKeepsItsOwn(s, t, k); } else { CallKeepsOthers(s, t, k, j); }
    }
  }

  lemma BeginKeeps(s: Sys, t: Sys)
    requires Inv(s) && BeginStep(s, t)
    ensures Inv(t) && Keeps(s, t)
  {
    forall j | j in t.session.futures ensures FutureOk(t, j) {
      if j in s.session.futures { assert FutureOk(s, j); }
    }
    forall j | j in s.session.futures ensures j in t.session.futures && j in t.calls && Completes(s, t, j) {
      assert FutureOk(s, j);
    }
  }

  lemma OtherRecordsComplete(session: Session, record: MiRecord)
    requires !(record.kind.Result? && record.token.Some?)
    ensures var next := session.HandleRecord(record);
            && next.futures == session.futures && next.pending == session.pending
            && next.nextToken == session.nextToken && next.started == session.started && next.closed == session.closed
            && ((session.stopEvent <==> session.state.StopsWaiting()) ==> (next.stopEvent <==> next.state.StopsWaiting()))
  {
  }

  lemma RecordKeeps(s: Sys, t: Sys, record: MiRecord)
    requires Inv(s) && RecordStep(s, t, record)
    ensures Inv(t) && Keeps(s, t)
  {
    if !(record.kind.Result? && record.token.Some?) {
      OtherRecordsComplete(s.session, record);
    } else {
      assert t.session == s.session.HandleResult(record, record.token.value);
    }
    forall j | j in s.session.futures ensures j in t.session.futures && j in t.calls && FutureOk(t, j) && Completes(s, t, j) {
      assert FutureOk(s, j);
    }
  }

  lemma ReaderEndKeeps(s: Sys, t: Sys, cause: Cause)
    requires Inv(s) && ReaderEndStep(s, t, cause)
    ensures Inv(t) && Keeps(s, t)
  {
    forall j | j in s.session.futures ensures j in t.session.futures && j in t.calls && FutureOk(t, j) && Completes(s, t, j) {
      assert FutureOk(s, j);
    }
  }

  lemma LifeKeeps(s: Sys, t: Sys)
    requires Inv(s) && LifeStep(s, t)
    ensures Inv(t) && Keeps(s, t)
  {
    forall j | j in s.session.futures ensures j in t.session.futures && j in t.calls && FutureOk(t, j) && Completes(s, t, j) {
      assert FutureOk(s, j);
    }
  }

  /** A command begun now would be refused. */
  predicate Refusing(s: Sys) { s.session.Begin(s.returncode).1.Refused? }

  ghost predicate Shut(s: Sys) {
    && s.reader.Ended() && s.session.pending == {}
    && (s.session.state.Failed? || s.session.closed || s.returncode.Some?)
  }

  lemma ShutStays(s: Sys, t: Sys)
    requires Inv(s) && Shut(s) && Step(s, t)
    ensures Shut(t)
  {
    if k: nat :| CallStep(s, t, k) {
    } else if BeginStep(s, t) {
    } else {
      assert LifeStep(s, t);
    }
  }

  /** What holds for ever once it holds, for the command with token `k`. */
  ghost predicate Later(s: Sys, t: Sys, k: nat) {
    && (Shut(s) ==> Shut(t))
    && (k in s.session.futures ==>
          k in t.session.futures && (s.session.futures[k].Open? || t.session.futures[k] == s.session.futures[k]))
  }

  lemma StepIsLater(s: Sys, t: Sys, k: nat)
    requires Inv(s) && Step(s, t)
    ensures Later(s, t, k)
  {
    StepKeeps(s, t);
    if Shut(s) { ShutStays(s, t); }
    if k in s.session.futures { assert Completes(s, t, k); }
  }

  lemma StepKeeps(s: Sys, t: Sys)
    requires Inv(s) && Step(s, t)
    ensures Inv(t) && Keeps(s, t)
  {
    if k: nat :| CallStep(s, t, k) {
      CallKeeps(s, t, k);
    } else if record :| RecordStep(s, t, record) {
      RecordKeeps(s, t, record);
    } else if cause :| ReaderEndStep(s, t, cause) {
      ReaderEndKeeps(s, t, cause);
    } else if BeginStep(s, t) {
      BeginKeeps(s, t);
    } else {
      LifeKeeps(s, t);
    }
  }

  lemma {:induction false} RunKeepsInv(run: seq<Sys>, i: nat)
    requires IsRun(run) && i < |run|
    ensures Inv(run[i])
  {
    if i > 0 {
      RunKeepsInv(run, i - 1);
      StepKeeps(run[i - 1], run[i]);
    }
  }

  lemma {:induction false} LaterChains(run: seq<Sys>, i: nat, j: nat, k: nat)
    requires i <= j < |run|
    requires forall n :: i <= n < j ==> Later(run[n], run[n + 1], k)
    ensures Later(run[i], run[j], k)
    decreases j
  {
    if i < j {
      LaterChains(run, i, j - 1, k);
      assert Later(run[j - 1], run[j - 1 + 1], k);
    }
  }

  lemma StepOfRunIsLater(run: seq<Sys>, n: nat, k: nat)
    requires IsRun(run) && n + 1 < |run|
    ensures Later(run[n], run[n + 1], k)
  {
    RunKeepsInv(run, n);
    StepIsLater(run[n], run[n + 1], k);
  }

  lemma RunIsLater(run: seq<Sys>, i: nat, j: nat, k: nat)
    requires IsRun(run) && i <= j < |run|
    ensures Later(run[i], run[j], k)
  {
    forall n | i <= n < j ensures Later(run[n], run[n + 1], k) {
      StepOfRunIsLater(run, n, k);
    }
    LaterChains(run, i, j, k);
  }

  // ---------------------------------------------------------------- the promises

  /** The stop event is set exactly while the state is STOPPED, EXITED or FAILED. */
  lemma StopEventIsExact(run: seq<Sys>, i: nat)
    requires IsRun(run) && i < |run|
    ensures run[i].session.stopEvent <==>
            run[i].session.state.Stopped? || run[i].session.state.Exited? || run[i].session.state.Failed?
  {
    RunKeepsInv(run, i);
  }

  /** Whoever waits for a stop is told of it until a running record says otherwise. */
  lemma StopHoldsUntilRunning(run: seq<Sys>, i: nat)
    requires IsRun(run) && i + 1 < |run| && run[i].session.stopEvent && !run[i + 1].session.stopEvent
    ensures run[i + 1].session.state.Running?
    ensures exists record :: RecordStep(run[i], run[i + 1], record) && IsRunning(record)
  {
    var s, t := run[i], run[i + 1];
    if k: nat :| CallStep(s, t, k) {
      assert false;
    } else if record :| RecordStep(s, t, record) {
      assert IsRunning(record);
    } else if cause :| ReaderEndStep(s, t, cause) {
      assert false;
    } else {
      assert false;
    }
  }

  /**
    A waiting command is completed only by a result record with its own token, by the end of the reader,
    or by its own time-out or failed send.
   */
  lemma CompletedByItsOwn(run: seq<Sys>, i: nat, k: nat)
    requires IsRun(run) && i + 1 < |run| && k in run[i].session.futures
    ensures k in run[i + 1].session.futures && k in run[i + 1].calls && Completes(run[i], run[i + 1], k)
  {
    RunKeepsInv(run, i);
    StepKeeps(run[i], run[i + 1]);
  }

  /** A future is completed at most once: no later step changes how. */
  lemma CompletedOnce(run: seq<Sys>, i: nat, j: nat, k: nat)
    requires IsRun(run) && i <= j < |run| && k in run[i].session.futures && !run[i].session.futures[k].Open?
    ensures k in run[j].session.futures && run[j].session.futures[k] == run[i].session.futures[k]
  {
    RunIsLater(run, i, j, k);
  }

  /** A late reply to a command that timed out completes nothing, neither that command nor any other. */
  lemma LateReplyIsIgnored(run: seq<Sys>, i: nat, j: nat, record: MiRecord, k: nat)
    requires IsRun(run) && i <= j < |run| && k in run[i].session.futures && run[i].session.futures[k].Withdrawn?
    requires record.kind.Result? && record.token == Some(k)
    ensures run[j].session.HandleRecord(record).futures == run[j].session.futures
    ensures run[j].session.HandleRecord(record).pending == run[j].session.pending
  {
    CompletedOnce(run, i, j, k);
    RunKeepsInv(run, j);
    assert FutureOk(run[j], k);
  }

  /** Every reply a command got carries its own token, whatever was in flight with it. */
  lemma RepliesMatchTokens(run: seq<Sys>, i: nat, k: nat)
    requires IsRun(run) && i < |run| && k in run[i].session.futures && run[i].session.futures[k].Reply?
    ensures run[i].session.futures[k].record.kind.Result? && run[i].session.futures[k].record.token == Some(k)
  {
    RunKeepsInv(run, i);
    assert FutureOk(run[i], k);
  }

  /** A reply completes its command: that one, at once, and no other. */
  lemma ReplyCompletesItsCommand(run: seq<Sys>, i: nat, record: MiRecord, k: nat)
    requires IsRun(run) && i + 1 < |run| && RecordStep(run[i], run[i + 1], record)
    requires record.kind == RecordKind.Result && record.token == Some(k)
    requires k in run[i].session.futures && run[i].session.futures[k] == Open
    ensures var s, t := run[i].session, run[i + 1].session;
            && t.futures == s.futures[k := Reply(record)] && t.pending == s.pending - {k}
            && t.state == (if record.messageClass == Some("running") then Running else s.state)
  {
    RunKeepsInv(run, i);
    assert FutureOk(run[i], k);
  }

  /** Where an asynchronous exec record leads: running, or stopped with its reason, or exited if the reason says so. */
  lemma ExecRecordsMoveTheState(run: seq<Sys>, i: nat, record: MiRecord)
    requires IsRun(run) && i + 1 < |run| && RecordStep(run[i], run[i + 1], record) && record.kind == ExecAsync
    ensures var s, t := run[i].session, run[i + 1].session;
            && t.futures == s.futures && t.pending == s.pending && t.ready == s.ready
            && (record.messageClass == Some("running") ==>
                  t.state == Running && !t.stopEvent && t.stopReason == s.stopReason)
            && (record.messageClass == Some("stopped") ==>
                  t.stopEvent && (t.state == Stopped || t.state == Exited))
            && (record.messageClass != Some("running") && record.messageClass != Some("stopped") ==> t == s)
  {
    RunKeepsInv(run, i);
  }

  /** The reason of a stop is recorded, and one that starts with "exited" ends the session's program. */
  lemma StopsForTheReason(run: seq<Sys>, i: nat, record: MiRecord, fields: map<string, Value>)
    requires IsRun(run) && i + 1 < |run| && RecordStep(run[i], run[i + 1], record)
    requires record.kind == ExecAsync && record.messageClass == Some("stopped") && record.payload == Results(fields)
    ensures "reason" in fields && fields["reason"].Str? ==>
              var reason := fields["reason"].s;
              && run[i + 1].session.stopReason == Some(reason)
              && run[i + 1].session.state == (if |reason| >= 6 && reason[..6] == "exited" then Exited else Stopped)
    ensures !("reason" in fields && fields["reason"].Str?) ==>
              run[i + 1].session.stopReason == None && run[i + 1].session.state == Stopped
  {
  }

  /** The first prompt makes a starting session ready and tells whoever started it; later ones change nothing. */
  lemma PromptMakesReady(run: seq<Sys>, i: nat, record: MiRecord)
    requires IsRun(run) && i + 1 < |run| && RecordStep(run[i], run[i + 1], record) && record.kind == Prompt
    ensures var s, t := run[i].session, run[i + 1].session;
            && t.state == (if s.state == Starting then Ready else s.state)
            && t.ready == (if s.ready == Open then Reply(record) else s.ready)
            && t.stopEvent == s.stopEvent && t.futures == s.futures && t.pending == s.pending
            && (s.state != Starting && s.ready != Open ==> t == s)
  {
    RunKeepsInv(run, i);
  }

  /** Stream, status and notify records, records of no known form and results without a token change nothing. */
  lemma OtherRecordsChangeNothing(run: seq<Sys>, i: nat, record: MiRecord)
    requires IsRun(run) && i + 1 < |run| && RecordStep(run[i], run[i + 1], record)
    requires record.kind != Prompt && record.kind != ExecAsync && (record.kind == RecordKind.Result ==> record.token == None)
    ensures run[i + 1] == run[i]
  {
  }

  /** The reader takes one line of GDB's output that parses. */
  ghost predicate LineStep(s: Sys, t: Sys, line: string) {
    RecordOf(line).Got? && RecordStep(s, t, RecordOf(line).value)
  }

  /** From GDB's text to the state: a printed `*stopped` ends the waiting for a stop, and its reason says how. */
  lemma StoppedLineStops(run: seq<Sys>, i: nat, token: Option<nat>, fields: Fields)
    requires IsRun(run) && i + 1 < |run| && fields.Valid()
    requires LineStep(run[i], run[i + 1], PrintToken(token) + "*" + ("stopped" + PrintResults(fields)))
    ensures var t, says := run[i + 1].session, fields.Meaning(map[]);
            && t.stopEvent
            && t.stopReason == (if "reason" in says && says["reason"].Str? then Some(says["reason"].s) else None)
            && t.state == (if "reason" in says && says["reason"].Str? && "exited" <= says["reason"].s then Exited else Stopped)
  {
    hide RecordOf, Session.HandleRecord;
    var record := ExecLine(token, "stopped", fields).Meaning();
    RecordRoundTrip(ExecLine(token, "stopped", fields));
    ExecRecordsMoveTheState(run, i, record);
    StopsForTheReason(run, i, record, fields.Meaning(map[]));
  }

  /** A printed `*running` lets it wait again. */
  lemma RunningLineRuns(run: seq<Sys>, i: nat, token: Option<nat>, fields: Fields)
    requires IsRun(run) && i + 1 < |run| && fields.Valid()
    requires LineStep(run[i], run[i + 1], PrintToken(token) + "*" + ("running" + PrintResults(fields)))
    ensures run[i + 1].session.state == Running && !run[i + 1].session.stopEvent
  {
    hide RecordOf, Session.HandleRecord;
    RecordRoundTrip(ExecLine(token, "running", fields));
    ExecRecordsMoveTheState(run, i, ExecLine(token, "running", fields).Meaning());
  }

  /** A printed reply completes the command whose token it starts with, with the class and the results it prints. */
  lemma ReplyLineCompletes(run: seq<Sys>, i: nat, k: nat, name: string, fields: Fields)
    requires IsRun(run) && i + 1 < |run| && IsName(name) && fields.Valid()
    requires LineStep(run[i], run[i + 1], Decimal(k) + "^" + (name + PrintResults(fields)))
    requires k in run[i].session.futures && run[i].session.futures[k] == Open
    ensures var line := Decimal(k) + "^" + (name + PrintResults(fields));
            var reply := MiRecord(RecordKind.Result, line, Some(k), Some(name), Results(fields.Meaning(map[])));
            run[i + 1].session.futures == run[i].session.futures[k := Reply(reply)]
  {
    hide RecordOf, Session.HandleRecord;
    RecordRoundTrip(ResultLine(Some(k), name, fields));
    ReplyCompletesItsCommand(run, i, ResultLine(Some(k), name, fields).Meaning(), k);
  }

  /** Every command is registered under a token that was never used, and waits; a refused one leaves no trace but the token. */
  lemma CommandsAreRegisteredAfresh(run: seq<Sys>, i: nat)
    requires IsRun(run) && i + 1 < |run| && BeginStep(run[i], run[i + 1])
    ensures var s, t := run[i].session, run[i + 1].session;
            var k := s.nextToken;
            var refused := !s.started || s.closed || s.state == Failed || run[i].returncode != None;
            && k !in s.futures && k !in s.pending && t.nextToken > k
            && t.futures == (if refused then s.futures else s.futures[k := Open])
            && t.pending == (if refused then s.pending else s.pending + {k})
            && t.state == s.state && t.stopEvent == s.stopEvent && t.ready == s.ready
  {
    RunKeepsInv(run, i);
    assert run[i].session.nextToken in run[i].session.futures ==> FutureOk(run[i], run[i].session.nextToken);
  }

  /** A command whose sending failed or whose time ran out has been withdrawn, unless its reply was there already. */
  lemma OverdueCommandsAreWithdrawn(run: seq<Sys>, i: nat, k: nat)
    requires IsRun(run) && i + 1 < |run| && CallStep(run[i], run[i + 1], k) && run[i + 1].calls[k] == Over
    requires run[i].session.futures[k] == Open && run[i + 1].session != run[i].session
    ensures run[i + 1].session.futures == run[i].session.futures[k := Withdrawn]
    ensures run[i + 1].session.pending == run[i].session.pending - {k}
    ensures run[i + 1].session.state == run[i].session.state
  {
    RunKeepsInv(run, i);
    assert FutureOk(run[i], k);
  }

  /** How the session stands when the reader has ended: every waiting command and the start have failed. */
  lemma ReaderEndLeaves(run: seq<Sys>, i: nat, cause: Cause)
    requires IsRun(run) && i + 1 < |run| && ReaderEndStep(run[i], run[i + 1], cause) && !cause.ReaderCancelled?
    ensures var s, t := run[i].session, run[i + 1].session;
            && t.pending == {} && t.stopEvent && t.futures.Keys == s.futures.Keys
            && (forall k <- s.futures :: t.futures[k] == if s.futures[k] == Open then ReaderFailed else s.futures[k])
            && t.ready == (if s.ready == Open then ReaderFailed else s.ready)
            && t.state == (if cause.TransportClosed? && (s.closing || cause.returncode == None || cause.returncode == Some(0))
                           then Exited else Failed)
  {
    RunKeepsInv(run, i);
    forall k | k in run[i].session.futures
      ensures run[i + 1].session.futures[k] ==
              if run[i].session.futures[k] == Open then ReaderFailed else run[i].session.futures[k]
    {
      assert FutureOk(run[i], k);
    }
  }

  /** Closing leaves a failed session failed and any other exited, and refuses every command from then on. */
  lemma {:induction false} ClosedStaysClosed(run: seq<Sys>, i: nat, j: nat)
    requires IsRun(run) && i <= j < |run| && run[i].session.closed
    ensures run[j].session.closed && Refusing(run[j]) && !run[j].reader.Reading?
    ensures run[j].session.state == run[i].session.state || run[j].session.state == Failed
    decreases j
  {
    hide Step, FutureOk;
    if i < j {
      ClosedStaysClosed(run, i, j - 1);
      ClosedStep(run[j - 1], run[j]);
    } else {
      RunKeepsInv(run, i);
    }
  }

  lemma ClosedStep(s: Sys, t: Sys)
    requires s.session.closed && !s.reader.Reading? && Step(s, t)
    ensures t.session.closed && !t.reader.Reading?
    ensures t.session.state == s.session.state || t.session.state == Failed
  {
  }

  /** The step that closes: from then on whoever waits for a stop is told. */
  lemma CloseLeavesExitedOrFailed(run: seq<Sys>, i: nat)
    requires IsRun(run) && i + 1 < |run| && !run[i].session.closed && run[i + 1].session.closed
    ensures run[i + 1].session.state == (if run[i].session.state == Failed then Failed else Exited)
    ensures run[i + 1].session.stopEvent && run[i + 1].session.futures == run[i].session.futures
  {
    RunKeepsInv(run, i);
    RunKeepsInv(run, i + 1);
    ClosingStep(run[i], run[i + 1]);
  }

  lemma RecordsDoNotClose(session: Session, record: MiRecord)
    ensures session.HandleRecord(record).closed == session.closed
  {
  }

  lemma ClosingStep(s: Sys, t: Sys)
    requires Step(s, t) && !s.session.closed && t.session.closed
    ensures t == s.(session := s.session.CloseEnds())
  {
    if record :| RecordStep(s, t, record) {
      RecordsDoNotClose(s.session, record);
    }
  }

  /** When the reader ends, commands are refused from then on if and only if it was a fault or a return code is known. */
  lemma RefusesExactlyWhenExitIsKnown(run: seq<Sys>, i: nat, cause: Cause)
    requires IsRun(run) && i + 1 < |run| && ReaderEndStep(run[i], run[i + 1], cause) && !cause.ReaderCancelled?
    ensures run[i + 1].session.pending == {}
    ensures Refusing(run[i + 1]) <==> cause.Fault? || run[i].returncode.Some?
  {
    RunKeepsInv(run, i);
  }

  /** In that case no command ever waits again, and every new one is refused. */
  lemma NobodyWaitsAfterTheReader(run: seq<Sys>, i: nat, j: nat, cause: Cause, k: nat)
    requires IsRun(run) && i < j < |run| && ReaderEndStep(run[i], run[i + 1], cause)
    requires cause.Fault? || (cause.TransportClosed? && run[i].returncode.Some?)
    ensures Refusing(run[j]) && run[j].session.pending == {}
    ensures k in run[j].session.futures ==> !run[j].session.futures[k].Open?
  {
    RefusesExactlyWhenExitIsKnown(run, i, cause);
    assert Shut(run[i + 1]);
    RunIsLater(run, i + 1, j, k);
    RunKeepsInv(run, j);
    if k in run[j].session.futures { assert FutureOk(run[j], k); }
  }

  /** Otherwise a command can be left waiting with no reader: the transport closed without a return code. */
  lemma ACommandCanWaitForNobody() returns (run: seq<Sys>)
    ensures IsRun(run)
    ensures var s := run[|run| - 1];
            s.reader.Ended() && 1 in s.calls && s.calls[1].Waiting? && s.session.futures == map[1 := Open]
  {
    var s0 := Sys(NewSession(), None, NotStarted, map[]);
    var s1 := s0.(session := s0.session.(started := true), reader := Reading);
    var cause := TransportClosed(None);
    var s2 := s1.(session := s1.session.ReaderEnds(cause), reader := Gone(cause));
    var s3 := s2.(session := s2.session.Begin(None).0, calls := map[1 := Sending]);
    var s4 := s3.(calls := map[1 := Waiting]);
    assert LifeStep(s0, s1);
    assert ReaderEndStep(s1, s2, cause);
    assert s2.session.futures == map[];
    assert BeginStep(s2, s3);
    assert CallStep(s3, s4, 1);
    run := [s0, s1, s2, s3, s4];
  }
}
