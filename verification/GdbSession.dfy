/**
  One GDB/MI session: commands correlated with their results by token over an asynchronous reader, the session
  state with its stop event, and every interleaving of commands, records, time-outs, reader ends and close.
 */
module GdbSession {
  import opened Wrappers
  import opened MiParser
  import opened MiRecords

  datatype State = Starting | Ready | Running | Stopped | Exited | Failed {
    predicate StopsWaiting() { Stopped? || Exited? || Failed? }
  }

  /** A response future, which is completed at most once. */
  datatype Outcome = Open | Reply(record: MiRecord) | ReaderFailed | Withdrawn

  /** Why the reader loop ended: the transport closed, anything else was raised, or the reader was cancelled. */
  datatype Cause = TransportClosed(returncode: Option<int>) | Fault | ReaderCancelled

  datatype Started = Refused | Registered(token: nat)

  function Reason(r: MiRecord): Option<string> {
    if r.payload.Results? && "reason" in r.payload.fields && r.payload.fields["reason"].Str?
    then Some(r.payload.fields["reason"].s) else None
  }

  predicate IsRunning(r: MiRecord) { (r.kind.Result? || r.kind.ExecAsync?) && r.messageClass == Some("running") }

  predicate IsStopped(r: MiRecord) { r.kind.ExecAsync? && r.messageClass == Some("stopped") }

  predicate SaysExited(r: MiRecord) { Reason(r).Some? && "exited" <= Reason(r).value }

  datatype Session = Session(
    state: State, stopEvent: bool, stopReason: Option<string>, started: bool, closing: bool, closed: bool,
    ready: Outcome, nextToken: nat, pending: set<nat>, futures: map<nat, Outcome>)
  {
    function SetState(next: State): Session {
      this.(state := next, stopEvent := if next.Running? then false else stopEvent || next.StopsWaiting())
    }

    /** Build a command and register its future, or refuse it; the token is used up either way. */
    function Begin(returncode: Option<int>): (Session, Started) {
      var used := this.(nextToken := nextToken + 1);
      if !started || closed || state.Failed? || returncode.Some? then (used, Refused)
      else (used.(pending := pending + {nextToken}, futures := futures[nextToken := Open]), Registered(nextToken))
    }

    function Complete(token: nat, outcome: Outcome): Session {
      if token in futures && futures[token].Open? then this.(futures := futures[token := outcome]) else this
    }

    /** The command was not sent, or it timed out. */
    function Withdraw(token: nat): Session {
      this.(pending := pending - {token}).Complete(token, Withdrawn)
    }

    function HandleResult(record: MiRecord, token: nat): Session {
      var s := if token in pending then this.(pending := pending - {token}).Complete(token, Reply(record)) else this;
      if IsRunning(record) then s.SetState(Running) else s
    }

    function HandleStopped(record: MiRecord): Session {
      this.(stopReason := Reason(record)).SetState(if SaysExited(record) then Exited else Stopped)
    }

    function HandlePrompt(record: MiRecord): Session {
      var s := if state.Starting? then SetState(Ready) else this;
      if ready.Open? && started then s.(ready := Reply(record)) else s
    }

    function HandleRecord(record: MiRecord): Session {
      if record.kind.Prompt? then HandlePrompt(record)
      else if record.kind.Result? && record.token.Some? then HandleResult(record, record.token.value)
      else if record.kind.ExecAsync? && IsRunning(record) then SetState(Running)
      else if IsStopped(record) then HandleStopped(record)
      else this
    }

    function FailWaiters(): Session {
      this.(ready := if ready.Open? && started then ReaderFailed else ready,
            pending := {},
            futures := map k | k in futures :: if k in pending && futures[k].Open? then ReaderFailed else futures[k])
    }

    function ReaderEnds(cause: Cause): Session {
      match cause
      case TransportClosed(rc) =>
        SetState(if closing || rc == None || rc == Some(0) then Exited else Failed).FailWaiters()
      case Fault => SetState(Failed).FailWaiters()
      case ReaderCancelled => this
    }

    function CloseEnds(): Session {
      var s := this.(closed := true);
      if state.Failed? then s else s.SetState(Exited)
    }
  }

  function NewSession(): Session {
    Session(Starting, false, None, false, false, false, Open, 1, {}, map[])
  }

  class GdbMiSession {
    var state: State
    var stopEvent: bool
    var stopReason: Option<string>
    var started: bool
    var closing: bool
    var closed: bool
    var ready: Outcome
    var nextToken: nat
    var pending: set<nat>
    var futures: map<nat, Outcome>

    function View(): Session
      reads this
    {
      Session(state, stopEvent, stopReason, started, closing, closed, ready, nextToken, pending, futures)
    }

    constructor ()
      ensures View() == NewSession()
    {
      state, stopEvent, stopReason, started, closing, closed := State.Starting, false, None, false, false, false;
      ready, nextToken, pending, futures := Open, 1, {}, map[];
    }

    method SetState(next: State)
      modifies this`state, this`stopEvent
      ensures View() == old(View()).SetState(next)
    {
      state := next;
      if next.Running? {
        stopEvent := false;
      } else if next.StopsWaiting() {
        stopEvent := true;
      }
    }

    /** The part of `_execute` that runs before the first await. */
    method Begin(returncode: Option<int>) returns (r: Started)
      modifies this
      ensures (View(), r) == old(View()).Begin(returncode)
    {
      var token := nextToken;
      nextToken := nextToken + 1;
      if !started || closed || state.Failed? || returncode.Some? {
        return Refused;
      }
      pending := pending + {token};
      futures := futures[token := Open];
      return Registered(token);
    }

    /** The error paths of `_execute`: sending failed, or no reply came in time. */
    method Withdraw(token: nat)
      modifies this
      ensures View() == old(View()).Withdraw(token)
    {
      pending := pending - {token};
      Complete(token, Withdrawn);
    }

    method Complete(token: nat, outcome: Outcome)
      modifies this`futures
      ensures View() == old(View()).Complete(token, outcome)
    {
      if token in futures && futures[token].Open? {
        futures := futures[token := outcome];
      }
    }

    method HandleRecord(record: MiRecord)
      modifies this
      ensures View() == old(View()).HandleRecord(record)
    {
      if record.kind.Prompt? {
        if state.Starting? {
          SetState(Ready);
        }
        if ready.Open? && started {
          ready := Reply(record);
        }
        return;
      }
      if record.kind.Result? && record.token.Some? {
        var token := record.token.value;
        if token in pending {
          pending := pending - {token};
          Complete(token, Reply(record));
        }
        if IsRunning(record) {
          SetState(Running);
        }
        return;
      }
      if record.kind.ExecAsync? {
        if IsRunning(record) {
          SetState(Running);
          return;
        }
        if IsStopped(record) {
          stopReason := Reason(record);
          SetState(if SaysExited(record) then Exited else Stopped);
        }
      }
    }

    method FailPending(waiting: set<nat>)
      modifies this`futures
      ensures futures == map k | k in old(futures) ::
                if k in waiting && old(futures)[k].Open? then ReaderFailed else old(futures)[k]
    {
      var left := waiting;
      while left != {}
        invariant left <= waiting && futures.Keys == old(futures).Keys
        invariant forall k <- old(futures) ::
          futures[k] == if k in waiting - left && old(futures)[k].Open? then ReaderFailed else old(futures)[k]
        decreases |left|
      {
        var token :| token in left;
        if token in futures && futures[token].Open? {
          futures := futures[token := ReaderFailed];
        }
        left := left - {token};
      }
    }

    method FailWaiters()
      modifies this
      ensures View() == old(View()).FailWaiters()
    {
      if ready.Open? && started {
        ready := ReaderFailed;
      }
      var waiting := pending;
      pending := {};
      FailPending(waiting);
    }

    method ReaderEnds(cause: Cause)
      modifies this
      ensures View() == old(View()).ReaderEnds(cause)
    {
      match cause {
        case TransportClosed(rc) =>
          if closing {
            SetState(Exited);
          } else if rc == None || rc == Some(0) {
            SetState(Exited);
          } else {
            SetState(Failed);
          }
          FailWaiters();
        case Fault =>
          SetState(Failed);
          FailWaiters();
        case ReaderCancelled =>
      }
    }

    method CloseEnds()
      modifies this
      ensures View() == old(View()).CloseEnds()
    {
      closed := true;
      if !state.Failed? {
        SetState(Exited);
      }
    }
  }
}
