/**
  Every interleaving of callers, time-outs, close and the dispatcher on one broker. What the broker's lock does not cover
  is split: taking an item and checking it, and checking a future and setting it, are separate steps, for the dispatcher
  and for close, so that a caller may give up in between.
 */
module BrokerRuns {
  import opened Wrappers
  import opened Broker

  /** The dispatcher; `last` when it returns after this request. */
  datatype Dispatcher =
    | Receiving | Checking(id: nat) | Dispatching(id: nat) | Completing(id: nat, outcome: Outcome, last: bool)
    | Setting(id: nat, outcome: Outcome, last: bool) | Returned
  {
    /** It holds this request. */
    predicate Holds(k: nat) {
      (Checking? || Dispatching? || Completing? || Setting?) && id == k
    }
  }

  /** The one call of close that finds the broker open, and the requests it took off the queue. */
  datatype Closer =
    | NotClosing
    | Draining(pending: seq<nat>)
    | AtFuture(pending: seq<nat>, n: nat)
    | FailingFuture(pending: seq<nat>, n: nat)
    | Ended(pending: seq<nat>)
    | Aborted(pending: seq<nat>, n: nat)
  {
    /** It holds the broker's lock. */
    predicate HoldsLock() { Draining? || AtFuture? || FailingFuture? }

    function Pending(): seq<nat> { if NotClosing? then [] else pending }

    /** How many of the pending futures are known to be done. */
    function Done(): nat {
      match this
      case NotClosing => 0
      case Draining(_) => 0
      case AtFuture(_, n) => n
      case FailingFuture(_, n) => n
      case Ended(pending) => |pending|
      case Aborted(_, n) => n + 1
    }
  }

  /** History: how many requests came off the queue, and which of them were handed to the session. */
  datatype Sys = Sys(broker: BrokerState, dispatcher: Dispatcher, closer: Closer, popped: nat, handed: seq<nat>)

  ghost predicate Init(s: Sys) { s == Sys(BrokerState([], false, []), Receiving, NotClosing, 0, []) }

  ghost predicate DispatcherStep(s: Sys, t: Sys) {
    match s.dispatcher
    case Receiving =>
      if |s.broker.queue| == 0 then
        s.broker.closed && !s.closer.HoldsLock() && t == s.(dispatcher := Returned)
      else
        var item := s.broker.queue[0];
        if item.Command? then t == s.(broker := s.broker.Pop(), dispatcher := Checking(item.id), popped := s.popped + 1)
        else t == s.(broker := s.broker.Pop(), dispatcher := Returned)
    case Checking(k) =>
      && k < |s.broker.responses|
      && t == if s.broker.responses[k].Cancelled? then s.(dispatcher := Receiving)
              else s.(dispatcher := Dispatching(k), handed := s.handed + [k])
    case Dispatching(k) =>
      || t == s.(dispatcher := Completing(k, Raised, false))
      || t == s.(dispatcher := Completing(k, Result, false))
      || t == s.(dispatcher := Completing(k, Result, true))
    case Completing(k, outcome, last) =>
      && k < |s.broker.responses|
      && t == s.(dispatcher := if s.broker.responses[k].Open? then Setting(k, outcome, last)
                               else if last then Returned else Receiving)
    case Setting(k, outcome, last) =>
      && k < |s.broker.responses|
      // Setting a future that was completed meanwhile raises, which ends the dispatcher.
      && t == if s.broker.responses[k].Open?
              then s.(broker := s.broker.Complete(k, outcome), dispatcher := if last then Returned else Receiving)
              else s.(dispatcher := Returned)
    case Returned => false
  }

  ghost predicate CloserStep(s: Sys, t: Sys) {
    match s.closer
    case NotClosing => t == s.(broker := s.broker.(closed := true), closer := Draining([]))
    case Draining(pending) =>
      if |s.broker.queue| == 0 then t == s.(closer := AtFuture(pending, 0))
      else if s.broker.queue[0].Command? then
        t == s.(broker := s.broker.Pop(), closer := Draining(pending + [s.broker.queue[0].id]), popped := s.popped + 1)
      else t == s.(broker := s.broker.Pop())
    case AtFuture(pending, n) =>
      if n >= |pending| then
        t == s.(broker := s.broker.(queue := s.broker.queue + [ClosedMarker]), closer := Ended(pending))
      else
        && pending[n] < |s.broker.responses|
        && t == s.(closer := if s.broker.responses[pending[n]].Open? then FailingFuture(pending, n)
                             else AtFuture(pending, n + 1))
    case FailingFuture(pending, n) =>
      && n < |pending| && pending[n] < |s.broker.responses|
      // Setting a future that was cancelled meanwhile raises, which ends close.
      && t == if s.broker.responses[pending[n]].Open?
              then s.(broker := s.broker.Complete(pending[n], BrokerClosed), closer := AtFuture(pending, n + 1))
              else s.(closer := Aborted(pending, n))
    case _ => false
  }

  ghost predicate RequestStep(s: Sys, t: Sys) {
    !s.closer.HoldsLock() && t == s.(broker := s.broker.Request().0)
  }

  ghost predicate CancelStep(s: Sys, t: Sys, k: nat) {
    k < |s.broker.responses| && t == s.(broker := s.broker.Complete(k, Cancelled))
  }

  ghost predicate Step(s: Sys, t: Sys) {
    DispatcherStep(s, t) || CloserStep(s, t) || RequestStep(s, t) || exists k :: CancelStep(s, t, k)
  }

  ghost predicate Steps(run: seq<Sys>) { forall n :: 0 <= n < |run| - 1 ==> Step(run[n], run[n + 1]) }

  ghost predicate IsRun(run: seq<Sys>) { |run| > 0 && Init(run[0]) && Steps(run) }

  // ---------------------------------------------------------------- the invariant

  ghost predicate QueueOk(s: Sys) {
    && s.popped <= |s.broker.responses|
    && (s.broker.closed <==> !s.closer.NotClosing?)
    && match s.closer
       case Ended(_) =>
         s.popped == |s.broker.responses| &&
         (s.broker.queue == [ClosedMarker] || (s.broker.queue == [] && s.dispatcher.Returned?))
       case NotClosing => QueueInOrder(s)
       case Draining(_) => QueueInOrder(s)
       case _ => s.popped == |s.broker.responses| && s.broker.queue == []
  }

  ghost predicate QueueInOrder(s: Sys) {
    && |s.broker.queue| == |s.broker.responses| - s.popped
    && forall i :: 0 <= i < |s.broker.queue| ==> s.broker.queue[i] == Command(s.popped + i)
  }

  ghost predicate DispatcherOk(s: Sys) {
    && (s.dispatcher.Completing? || s.dispatcher.Setting? ==> s.dispatcher.outcome.Result? || s.dispatcher.outcome.Raised?)
    && (forall k: nat :: s.dispatcher.Holds(k) ==> k < s.popped && k !in s.closer.Pending())
    && (s.dispatcher.Checking? ==> forall i :: 0 <= i < |s.handed| ==> s.handed[i] < s.dispatcher.id)
    && (forall i :: 0 <= i < |s.handed| ==> s.handed[i] < s.popped)
    && (forall i, j :: 0 <= i < j < |s.handed| ==> s.handed[i] < s.handed[j])
  }

  ghost predicate CloserOk(s: Sys) {
    var pending := s.closer.Pending();
    && s.closer.Done() <= |pending|
    && (s.closer.FailingFuture? ==> s.closer.n < |pending|)
    && forall m :: 0 <= m < |pending| ==> pending[m] < s.popped
  }

  ghost predicate Core(s: Sys) { QueueOk(s) && DispatcherOk(s) && CloserOk(s) }

  /** Where request `k` is: queued, held by the dispatcher, taken by close, or done. */
  ghost predicate RequestOk(s: Sys, k: nat)
    requires k < |s.broker.responses|
  {
    var response, pending := s.broker.responses[k], s.closer.Pending();
    && (k < s.popped && !s.dispatcher.Holds(k) && k !in pending ==> !response.Open? && (k !in s.handed ==> response.Cancelled?))
    && (forall m :: 0 <= m < |pending| && m < s.closer.Done() && pending[m] == k ==> !response.Open?)
    && (s.dispatcher.Holds(k) ==> (k in s.handed <==> !s.dispatcher.Checking?))
    && (k >= s.popped ==> response.Open? || response.Cancelled?)
    && (k in pending ==> k !in s.handed && (response.Open? || response.BrokerClosed? || response.Cancelled?))
  }

  ghost predicate Inv(s: Sys) {
    Core(s) && forall k: nat | k < |s.broker.responses| :: RequestOk(s, k)
  }

  /** A done future never changes. */
  ghost predicate Keeps(s: Sys, t: Sys, k: nat) {
    k < |s.broker.responses| ==>
      k < |t.broker.responses| && (s.broker.responses[k].Open? || t.broker.responses[k] == s.broker.responses[k])
  }

  lemma ReceiveKeepsCore(s: Sys, t: Sys)
    requires Core(s) && DispatcherStep(s, t) && s.dispatcher.Receiving?
    ensures Core(t) && t.broker.responses == s.broker.responses
  {
    if |s.broker.queue| > 0 && (s.closer.NotClosing? || s.closer.Draining?) {
      assert s.broker.queue[0] == Command(s.popped + 0);
    }
  }

  lemma DispatcherKeepsCore(s: Sys, t: Sys)
    requires Core(s) && DispatcherStep(s, t)
    ensures Core(t) && |t.broker.responses| == |s.broker.responses|
  {
    if s.dispatcher.Receiving? {
      ReceiveKeepsCore(s, t);
    } else if !s.dispatcher.Returned? {
      assert s.dispatcher.Holds(s.dispatcher.id);
    }
  }

  lemma DispatcherKeeps(s: Sys, t: Sys, k: nat)
    requires Inv(s) && DispatcherStep(s, t) && |t.broker.responses| == |s.broker.responses|
    requires k < |s.broker.responses|
    ensures RequestOk(t, k) && Keeps(s, t, k)
  {
    assert RequestOk(s, k);
    if s.dispatcher.Receiving? && |s.broker.queue| > 0 && (s.closer.NotClosing? || s.closer.Draining?) {
      assert s.broker.queue[0] == Command(s.popped + 0);
    }
    if s.dispatcher.Checking? && t.dispatcher.Dispatching? {
      assert s.dispatcher.Holds(s.dispatcher.id);
      assert k in t.handed <==> k in s.handed || k == s.dispatcher.id;
    }
  }

  lemma CloserKeepsCore(s: Sys, t: Sys)
    requires Inv(s) && CloserStep(s, t)
    ensures Core(t) && |t.broker.responses| == |s.broker.responses|
  {
    if s.closer.Draining? && |s.broker.queue| > 0 {
      assert s.broker.queue[0] == Command(s.popped + 0);
    }
  }

  lemma CloserKeeps(s: Sys, t: Sys, k: nat)
    requires Inv(s) && CloserStep(s, t) && |t.broker.responses| == |s.broker.responses|
    requires k < |s.broker.responses|
    ensures RequestOk(t, k) && Keeps(s, t, k)
  {
    assert RequestOk(s, k);
    if s.closer.Draining? && |s.broker.queue| > 0 {
      assert s.broker.queue[0] == Command(s.popped + 0);
      assert k in t.closer.pending <==> k in s.closer.pending || k == s.popped;
    }
  }

  lemma RequestKeeps(s: Sys, t: Sys, k: nat)
    requires Inv(s) && RequestStep(s, t)
    ensures Core(t) && Keeps(s, t, k)
    ensures k < |t.broker.responses| ==> RequestOk(t, k)
  {
    if k < |s.broker.responses| { assert RequestOk(s, k); }
  }

  lemma CancelKeeps(s: Sys, t: Sys, c: nat, k: nat)
    requires Inv(s) && CancelStep(s, t, c)
    ensures Core(t) && Keeps(s, t, k)
    ensures k < |t.broker.responses| ==> RequestOk(t, k)
  {
    if k < |s.broker.responses| { assert RequestOk(s, k); }
  }

  lemma StepKeeps(s: Sys, t: Sys, k: nat)
    requires Inv(s) && Step(s, t)
    ensures Core(t) && Keeps(s, t, k)
    ensures k < |t.broker.responses| ==> RequestOk(t, k)
  {
    hide Inv, Core, RequestOk;
    if DispatcherStep(s, t) {
      assert Core(s) by { InvIsCore(s); }
      DispatcherKeepsCore(s, t);
      if k < |s.broker.responses| { DispatcherKeeps(s, t, k); }
    } else if CloserStep(s, t) {
      CloserKeepsCore(s, t);
      if k < |s.broker.responses| { CloserKeeps(s, t, k); }
    } else if RequestStep(s, t) {
      RequestKeeps(s, t, k);
    } else {
      var c: nat :| CancelStep(s, t, c);
      CancelKeeps(s, t, c, k);
    }
  }

  lemma InvIsCore(s: Sys)
    requires Inv(s)
    ensures Core(s)
  {
  }

  lemma StepKeepsInv(s: Sys, t: Sys)
    requires Inv(s) && Step(s, t)
    ensures Inv(t)
  {
    hide Step, Core, RequestOk;
    forall k: nat | k < |t.broker.responses| ensures RequestOk(t, k) {
      StepKeeps(s, t, k);
    }
    StepKeeps(s, t, 0);
  }

  lemma {:induction false} RunKeepsInv(run: seq<Sys>, i: nat)
    requires IsRun(run) && i < |run|
    ensures Inv(run[i])
  {
    hide Step;
    if i > 0 {
      RunKeepsInv(run, i - 1);
      StepKeepsInv(run[i - 1], run[i]);
    }
  }

  lemma {:induction false} KeepsChain(run: seq<Sys>, i: nat, j: nat, k: nat)
    requires i <= j < |run|
    requires forall n :: i <= n < j ==> Keeps(run[n], run[n + 1], k)
    ensures Keeps(run[i], run[j], k)
    decreases j
  {
    if i < j {
      KeepsChain(run, i, j - 1, k);
      assert Keeps(run[j - 1], run[j - 1 + 1], k);
    }
  }

  lemma StepOfRunKeeps(run: seq<Sys>, n: nat, k: nat)
    requires IsRun(run) && n + 1 < |run|
    ensures Keeps(run[n], run[n + 1], k)
  {
    hide Step;
    RunKeepsInv(run, n);
    StepKeeps(run[n], run[n + 1], k);
  }

  // ---------------------------------------------------------------- the promises

  /** Every accepted request is queued at its turn, the one the dispatcher holds, taken by close, or completed. */
  lemma EveryRequestIsSomewhere(run: seq<Sys>, i: nat, k: nat)
    requires IsRun(run) && i < |run| && k < |run[i].broker.responses|
    ensures var s := run[i];
            || (s.popped <= k && k - s.popped < |s.broker.queue| && s.broker.queue[k - s.popped] == Command(k))
            || s.dispatcher.Holds(k)
            || k in s.closer.Pending()
            || !s.broker.responses[k].Open?
  {
    hide Step;
    RunKeepsInv(run, i);
    assert RequestOk(run[i], k);
  }

  /** No request is completed twice. */
  lemma CompletedOnce(run: seq<Sys>, i: nat, j: nat, k: nat)
    requires IsRun(run) && i <= j < |run| && k < |run[i].broker.responses| && !run[i].broker.responses[k].Open?
    ensures k < |run[j].broker.responses| && run[j].broker.responses[k] == run[i].broker.responses[k]
  {
    hide Step;
    forall n | i <= n < j ensures Keeps(run[n], run[n + 1], k) {
      StepOfRunKeeps(run, n, k);
    }
    KeepsChain(run, i, j, k);
  }

  /**
    Requests are handed out in the order they were accepted, and only those are passed over whose caller gave up or
    which close had taken.
   */
  lemma HandOutIsFifo(run: seq<Sys>, i: nat, a: nat, k: nat)
    requires IsRun(run) && i < |run| && a < |run[i].handed| && k < run[i].handed[a]
    ensures forall b :: a < b < |run[i].handed| ==> run[i].handed[a] < run[i].handed[b]
    ensures k < |run[i].broker.responses|
    ensures k !in run[i].handed ==> run[i].broker.responses[k].Cancelled? || k in run[i].closer.Pending()
  {
    hide Step;
    RunKeepsInv(run, i);
    var s := run[i];
    assert s.handed[a] < s.popped;
    assert RequestOk(s, k);
  }

  // ---------------------------------------------------------------- how close ends

  /** A caller gives up between close's check of its future and the setting of it. */
  ghost predicate Races(s: Sys, t: Sys) {
    && s.closer.FailingFuture? && s.closer.n < |s.closer.pending|
    && var k := s.closer.pending[s.closer.n];
       CancelStep(s, t, k) && s.broker.responses[k].Open?
  }

  /** Close is bound to raise: the future it is about to set is done. */
  ghost predicate Lost(s: Sys) {
    && s.closer.FailingFuture? && s.closer.n < |s.closer.pending| && s.closer.pending[s.closer.n] < |s.broker.responses|
    && !s.broker.responses[s.closer.pending[s.closer.n]].Open?
  }

  lemma OnlyRacesLose(s: Sys, t: Sys)
    requires Inv(s) && Step(s, t)
    ensures Lost(t) || t.closer.Aborted? <==> Lost(s) || s.closer.Aborted? || Races(s, t)
  {
    var failing := s.closer.FailingFuture?;
    if failing {
      var k := s.closer.pending[s.closer.n];
      assert k < |s.broker.responses| && RequestOk(s, k);
      if DispatcherStep(s, t) {
        DispatcherLosesNothing(s, t, k);
      }
    }
  }

  lemma DispatcherLosesNothing(s: Sys, t: Sys, k: nat)
    requires Inv(s) && DispatcherStep(s, t) && k in s.closer.Pending() && k < |s.broker.responses|
    ensures k < |t.broker.responses| && t.broker.responses[k] == s.broker.responses[k] && t.closer == s.closer
  {
    assert !s.dispatcher.Holds(k);
  }

  /** Close raises, or is bound to, if and only if a caller gave up between its check and its set of one future. */
  lemma {:induction false} CloseFailsExactlyByRaces(run: seq<Sys>, i: nat)
    requires IsRun(run) && i < |run|
    ensures Lost(run[i]) || run[i].closer.Aborted? <==> exists n :: 0 <= n < i && Races(run[n], run[n + 1])
  {
    hide Step, Inv, Lost, Races;
    if i == 0 {
      NothingLostYet(run[0]);
    } else {
      CloseFailsExactlyByRaces(run, i - 1);
      RunKeepsInv(run, i - 1);
      OnlyRacesLose(run[i - 1], run[i]);
    }
  }

  lemma NothingLostYet(s: Sys)
    requires Init(s)
    ensures !Lost(s) && !s.closer.Aborted?
  {
  }

  ghost predicate CloseReturned(s: Sys) { s.closer.Ended? || s.closer.Aborted? }

  /** Close raised before it came to this request. */
  ghost predicate NotReached(closer: Closer, k: nat) {
    closer.Aborted? && exists m :: closer.n < m < |closer.pending| && closer.pending[m] == k
  }

  /** Once close has returned, a request it took is still open only if close raised before it came to it. */
  lemma WhatCloseLeaves(run: seq<Sys>, i: nat, k: nat)
    requires IsRun(run) && i < |run| && CloseReturned(run[i]) && k in run[i].closer.pending
    ensures k < |run[i].broker.responses|
    ensures run[i].broker.responses[k].Open? ==> NotReached(run[i].closer, k)
  {
    hide Step;
    RunKeepsInv(run, i);
    var s := run[i];
    var m :| 0 <= m < |s.closer.pending| && s.closer.pending[m] == k;
    assert RequestOk(s, k);
  }

  /**
    Close completes every request it took off the queue and puts its marker, unless a caller gives up between its check
    and its set of one future; and every later request is refused.
   */
  lemma CloseCompletesTheQueued(run: seq<Sys>, i: nat, j: nat, k: nat)
    requires IsRun(run) && i <= j < |run| && CloseReturned(run[i]) && k in run[i].closer.pending
    requires forall n :: 0 <= n < i ==> !Races(run[n], run[n + 1])
    ensures k < |run[i].broker.responses| && !run[i].broker.responses[k].Open?
    ensures k < |run[j].broker.responses| && run[j].broker.responses[k] == run[i].broker.responses[k]
    ensures run[i].broker.queue == [ClosedMarker] || run[i].dispatcher.Returned?
    ensures run[i].broker.Request().1.None?
  {
    hide Step, Races;
    RunKeepsInv(run, i);
    CloseFailsExactlyByRaces(run, i);
    WhatCloseLeaves(run, i, k);
    CompletedOnce(run, i, j, k);
  }

  /** Whatever happens to close, nothing is accepted once it has begun and nothing else stays queued when it returns. */
  lemma ClosedTakesEverything(run: seq<Sys>, i: nat, k: nat)
    requires IsRun(run) && i < |run| && k < |run[i].broker.responses|
    ensures run[i].broker.closed ==> run[i].broker.Request().1.None?
    ensures CloseReturned(run[i]) ==> Command(k) !in run[i].broker.queue
  {
    hide Step;
    RunKeepsInv(run, i);
  }

  /**
    Once close and the dispatcher have returned, every request ever accepted is completed, unless a caller gave up between
    close's check and its set of one future; then the requests close had still before it may be open.
   */
  lemma ClosedLeavesNobodyWaiting(run: seq<Sys>, i: nat, k: nat)
    requires IsRun(run) && i < |run| && k < |run[i].broker.responses|
    requires CloseReturned(run[i]) && run[i].dispatcher.Returned?
    ensures (forall n :: 0 <= n < i ==> !Races(run[n], run[n + 1])) ==> !run[i].broker.responses[k].Open?
    ensures run[i].broker.responses[k].Open? ==> NotReached(run[i].closer, k)
  {
    hide Step, Races;
    RunKeepsInv(run, i);
    assert RequestOk(run[i], k);
    CloseFailsExactlyByRaces(run, i);
    if k in run[i].closer.pending { WhatCloseLeaves(run, i, k); }
  }

  // ---------------------------------------------------------------- close when nobody else moves

  /** A stretch in which close alone makes steps. */
  ghost predicate ClosesAlone(run: seq<Sys>, s: Sys, t: Sys) {
    && |run| > 0 && run[0] == s && run[|run| - 1] == t
    && forall n :: 0 <= n < |run| - 1 ==> CloserStep(run[n], run[n + 1])
  }

  lemma FirstAlone(s: Sys, t: Sys, run: seq<Sys>, u: Sys)
    requires CloserStep(s, t) && ClosesAlone(run, t, u)
    ensures ClosesAlone([s] + run, s, u)
  {
    hide CloserStep;
    var longer := [s] + run;
    forall n | 0 <= n < |longer| - 1 ensures CloserStep(longer[n], longer[n + 1]) {
      if n > 0 { assert longer[n] == run[n - 1] && longer[n + 1] == run[n]; }
    }
  }

  /** The futures from the `n`th pending one on, failed where they are open. */
  function Failed(responses: seq<Outcome>, pending: seq<nat>, n: nat): seq<Outcome> {
    seq(|responses|, i requires 0 <= i < |responses| =>
      if n <= |pending| && i in pending[n..] && responses[i].Open? then BrokerClosed else responses[i])
  }

  lemma FailOne(responses: seq<Outcome>, pending: seq<nat>, n: nat)
    requires n < |pending| && pending[n] < |responses|
    ensures Failed(responses, pending, n) ==
            Failed(if responses[pending[n]].Open? then responses[pending[n] := BrokerClosed] else responses, pending, n + 1)
  {
    assert pending[n..] == [pending[n]] + pending[n + 1..];
  }

  lemma {:induction false} FailsAlone(s: Sys, t: Sys) returns (run: seq<Sys>)
    requires s.closer.AtFuture? && s.closer.n <= |s.closer.pending| && s.broker.queue == []
    requires forall m :: 0 <= m < |s.closer.pending| ==> s.closer.pending[m] < |s.broker.responses|
    requires t == s.(closer := Ended(s.closer.pending), broker := s.broker.(queue := [ClosedMarker],
                     responses := Failed(s.broker.responses, s.closer.pending, s.closer.n)))
    ensures ClosesAlone(run, s, t)
    decreases |s.closer.pending| - s.closer.n
  {
    hide ClosesAlone;
    var pending, n := s.closer.pending, s.closer.n;
    if n == |pending| {
      assert Failed(s.broker.responses, pending, n) == s.broker.responses;
      run := OneAlone(s, t);
    } else {
      FailOne(s.broker.responses, pending, n);
      var k := pending[n];
      var next := s.(closer := AtFuture(pending, n + 1),
                     broker := s.broker.(responses := if s.broker.responses[k].Open? then s.broker.responses[k := BrokerClosed]
                                                      else s.broker.responses));
      run := FailsAlone(next, t);
      if s.broker.responses[k].Open? {
        var check := s.(closer := FailingFuture(pending, n));
        FirstAlone(check, next, run, t);
        FirstAlone(s, check, [check] + run, t);
        run := [s] + ([check] + run);
      } else {
        FirstAlone(s, next, run, t);
        run := [s] + run;
      }
    }
  }

  lemma OneAlone(s: Sys, t: Sys) returns (run: seq<Sys>)
    requires CloserStep(s, t)
    ensures ClosesAlone(run, s, t)
  {
    hide CloserStep;
    run := [s, t];
  }

  /** The numbers of the queued requests. */
  function Ids(queue: seq<Item>): seq<nat>
    requires forall i :: 0 <= i < |queue| ==> queue[i].Command?
  {
    if |queue| == 0 then [] else [queue[0].id] + Ids(queue[1..])
  }

  lemma {:induction false} IdsAreQueued(queue: seq<Item>, k: nat)
    requires forall i :: 0 <= i < |queue| ==> queue[i].Command?
    ensures k in Ids(queue) <==> Command(k) in queue
  {
    if |queue| > 0 {
      IdsAreQueued(queue[1..], k);
      assert queue == [queue[0]] + queue[1..];
    }
  }

  lemma {:induction false} DrainsAlone(s: Sys, t: Sys, all: seq<nat>, u: Sys) returns (run: seq<Sys>)
    requires s.closer.Draining? && forall i :: 0 <= i < |s.broker.queue| ==> s.broker.queue[i].Command?
    requires all == s.closer.pending + Ids(s.broker.queue)
    requires t == s.(closer := AtFuture(all, 0), popped := s.popped + |s.broker.queue|, broker := s.broker.(queue := []))
    requires forall m :: 0 <= m < |all| ==> all[m] < |s.broker.responses|
    requires u == t.(closer := Ended(all), broker := t.broker.(queue := [ClosedMarker],
                     responses := Failed(t.broker.responses, all, 0)))
    ensures ClosesAlone(run, s, u)
    decreases |s.broker.queue|
  {
    hide ClosesAlone, Failed;
    var queue := s.broker.queue;
    if |queue| == 0 {
      assert all == s.closer.pending && queue == [];
      run := FailsAlone(t, u);
      FirstAlone(s, t, run, u);
      run := [s] + run;
    } else {
      var next := s.(broker := s.broker.Pop(), closer := Draining(s.closer.pending + [queue[0].id]), popped := s.popped + 1);
      assert all == next.closer.pending + Ids(next.broker.queue);
      run := DrainsAlone(next, t, all, u);
      FirstAlone(s, next, run, u);
      run := [s] + run;
    }
  }

  /** If no caller and no dispatcher moves meanwhile, the steps of close amount to `Close`. */
  lemma UninterruptedCloseIsClose(s: Sys) returns (run: seq<Sys>, t: Sys)
    requires Inv(s) && s.closer.NotClosing?
    ensures ClosesAlone(run, s, t) && t.closer.Ended? && t.broker == s.broker.Close()
  {
    hide ClosesAlone, RequestOk;
    var begun := s.(broker := s.broker.(closed := true), closer := Draining([]));
    var all := Ids(s.broker.queue);
    assert all == begun.closer.pending + all;
    forall m | 0 <= m < |all| ensures all[m] < |s.broker.responses| {
      IdsAreQueued(s.broker.queue, all[m]);
      assert all[m] in all;
    }
    var drained := begun.(closer := AtFuture(all, 0), popped := s.popped + |s.broker.queue|, broker := begun.broker.(queue := []));
    t := drained.(closer := Ended(all), broker := drained.broker.(queue := [ClosedMarker],
                  responses := Failed(drained.broker.responses, all, 0)));
    run := DrainsAlone(begun, drained, all, t);
    FirstAlone(s, begun, run, t);
    run := [s] + run;
    assert t.broker.responses == s.broker.Close().responses by {
      assert all[0..] == all;
      forall i: nat | i < |s.broker.responses| ensures t.broker.responses[i] == s.broker.Close().responses[i] {
        IdsAreQueued(s.broker.queue, i);
      }
    }
  }

  // ---------------------------------------------------------------- a request that close leaves open

  /** What close left open is never completed, unless its own caller gives up. */
  lemma AbandonedOnlyGiveUp(s: Sys, t: Sys, k: nat)
    requires Inv(s) && Step(s, t) && s.closer.Aborted? && k in s.closer.pending
    requires k < |s.broker.responses| && s.broker.responses[k].Open?
    ensures t.closer == s.closer && k < |t.broker.responses|
    ensures t.broker.responses[k].Open? || CancelStep(s, t, k)
  {
    if DispatcherStep(s, t) {
      DispatcherLosesNothing(s, t, k);
    }
  }

  function Two(queue: seq<Item>, first: Outcome, dispatcher: Dispatcher, closer: Closer): Sys
    requires |queue| <= 2
  {
    Sys(BrokerState(queue, !closer.NotClosing?, [first, Open]), dispatcher, closer, 2 - |queue|, [])
  }

  lemma TwoAccepted() returns (run: seq<Sys>)
    ensures IsRun(run) && |run| > 0 && run[|run| - 1] == Two([Command(0), Command(1)], Open, Receiving, NotClosing)
  {
    var s0 := Sys(BrokerState([], false, []), Receiving, NotClosing, 0, []);
    var s1 := s0.(broker := BrokerState([Command(0)], false, [Open]));
    var s2 := Two([Command(0), Command(1)], Open, Receiving, NotClosing);
    assert s0.broker.Request().0 == s1.broker && s1.broker.Request().0 == s2.broker;
    assert RequestStep(s0, s1) && RequestStep(s1, s2);
    run := [s0, s1, s2];
  }

  lemma TwoDrained()
    ensures Step(Two([Command(0), Command(1)], Open, Receiving, NotClosing), Two([Command(0), Command(1)], Open, Receiving, Draining([])))
    ensures Step(Two([Command(0), Command(1)], Open, Receiving, Draining([])), Two([Command(1)], Open, Receiving, Draining([0])))
    ensures Step(Two([Command(1)], Open, Receiving, Draining([0])), Two([], Open, Receiving, Draining([0, 1])))
    ensures Step(Two([], Open, Receiving, Draining([0, 1])), Two([], Open, Receiving, AtFuture([0, 1], 0)))
  {
    hide DispatcherStep, RequestStep, CancelStep;
    var both, one := [Command(0), Command(1)], [Command(1)];
    assert both[1..] == one && one[1..] == [] && [] + [0] == [0] && [0] + [1] == [0, 1];
    assert CloserStep(Two(both, Open, Receiving, NotClosing), Two(both, Open, Receiving, Draining([])));
    assert CloserStep(Two(both, Open, Receiving, Draining([])), Two(one, Open, Receiving, Draining([0])));
    assert CloserStep(Two(one, Open, Receiving, Draining([0])), Two([], Open, Receiving, Draining([0, 1])));
    assert CloserStep(Two([], Open, Receiving, Draining([0, 1])), Two([], Open, Receiving, AtFuture([0, 1], 0)));
  }

  lemma TheFirstGivesUp()
    ensures Step(Two([], Open, Receiving, AtFuture([0, 1], 0)), Two([], Open, Receiving, FailingFuture([0, 1], 0)))
    ensures Races(Two([], Open, Receiving, FailingFuture([0, 1], 0)), Two([], Cancelled, Receiving, FailingFuture([0, 1], 0)))
    ensures Step(Two([], Open, Receiving, FailingFuture([0, 1], 0)), Two([], Cancelled, Receiving, FailingFuture([0, 1], 0)))
    ensures Step(Two([], Cancelled, Receiving, FailingFuture([0, 1], 0)), Two([], Cancelled, Receiving, Aborted([0, 1], 0)))
    ensures Step(Two([], Cancelled, Receiving, Aborted([0, 1], 0)), Two([], Cancelled, Returned, Aborted([0, 1], 0)))
  {
    var open, gone := Two([], Open, Receiving, FailingFuture([0, 1], 0)), Two([], Cancelled, Receiving, FailingFuture([0, 1], 0));
    assert CloserStep(Two([], Open, Receiving, AtFuture([0, 1], 0)), open);
    assert open.broker.Complete(0, Cancelled) == gone.broker && CancelStep(open, gone, 0);
    assert CloserStep(gone, Two([], Cancelled, Receiving, Aborted([0, 1], 0)));
    assert DispatcherStep(Two([], Cancelled, Receiving, Aborted([0, 1], 0)), Two([], Cancelled, Returned, Aborted([0, 1], 0)));
  }

  lemma GoesOn(run: seq<Sys>, t: Sys) returns (longer: seq<Sys>)
    requires |run| > 0 && IsRun(run) && Step(run[|run| - 1], t)
    ensures IsRun(longer) && |longer| > 0 && longer[|longer| - 1] == t
  {
    hide Step;
    longer := run + [t];
    forall i | 0 <= i < |longer| - 1 ensures Step(longer[i], longer[i + 1]) {
      if i + 1 < |run| { assert longer[i] == run[i] && longer[i + 1] == run[i + 1]; }
    }
  }

  /** Close finds two open requests; the caller of the first gives up just before close fails its future. */
  lemma ARaceLeavesARequestOpen() returns (run: seq<Sys>)
    ensures IsRun(run) && |run| > 0
    ensures var s := run[|run| - 1];
            CloseReturned(s) && s.dispatcher.Returned? && |s.broker.responses| == 2 && s.broker.responses[1].Open?
  {
    hide Step, IsRun;
    TwoDrained();
    TheFirstGivesUp();
    run := TwoAccepted();
    run := GoesOn(run, Two([Command(0), Command(1)], Open, Receiving, Draining([])));
    run := GoesOn(run, Two([Command(1)], Open, Receiving, Draining([0])));
    run := GoesOn(run, Two([], Open, Receiving, Draining([0, 1])));
    run := GoesOn(run, Two([], Open, Receiving, AtFuture([0, 1], 0)));
    run := GoesOn(run, Two([], Open, Receiving, FailingFuture([0, 1], 0)));
    run := GoesOn(run, Two([], Cancelled, Receiving, FailingFuture([0, 1], 0)));
    run := GoesOn(run, Two([], Cancelled, Receiving, Aborted([0, 1], 0)));
    run := GoesOn(run, Two([], Cancelled, Returned, Aborted([0, 1], 0)));
  }
}
