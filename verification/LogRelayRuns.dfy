/**
  Every interleaving of appending, draining, consuming, subscribing and unsubscribing for one task's
  log, and what its subscribers are sure to see.
 */
module LogRelayRuns {
  import opened Wrappers
  import opened LogRelay

  /** A websocket client: its subscriber, and what it was given when it subscribed and since. */
  datatype Client = Client(
    sub: Sub, registered: bool, start: nat, history: seq<LogEvent>, cutover: nat, consumed: seq<Item>)

  /** `log` is every message ever appended, under its number from 1; the table keeps `rows`. */
  datatype Sys = Sys(maxLines: nat, log: seq<LogEvent>, rows: seq<LogEvent>, closed: bool, clients: seq<Client>)

  ghost predicate Init(s: Sys) {
    s.maxLines > 0 && s.log == [] && s.rows == [] && !s.closed && s.clients == []
  }

  function Staged(c: Client, maxLines: nat, event: LogEvent): Client {
    if !c.registered then c
    else
      var (sub, live) := c.sub.Stage(maxLines, event);
      c.(sub := sub, registered := live)
  }

  ghost predicate AppendStep(s: Sys, t: Sys, message: string) {
    var event := NextEvent(s.rows, message);
    && !s.closed
    && t == s.(log := s.log + [LogEvent(|s.log| + 1, message)], rows := InsertRow(s.rows, s.maxLines, message), clients := t.clients)
    && |t.clients| == |s.clients|
    && forall i :: 0 <= i < |s.clients| ==> t.clients[i] == Staged(s.clients[i], s.maxLines, event)
  }

  ghost predicate SubscribeStep(s: Sys, t: Sys) {
    && !s.closed
    && t == s.(clients := s.clients + [Client(NewSub(), true, |s.log|, s.rows, Cutover(s.rows), [])])
  }

  /** A step of one client: its loop drains or delivers, it unsubscribes, or its loop closes. */
  ghost predicate ClientMove(maxLines: nat, closed: bool, c: Client, d: Client) {
    || (c.sub.drainScheduled && c.sub.loopOpen && d == c.(sub := c.sub.Drain(maxLines)))
    || (|c.sub.queue| > 0 && d == c.(sub := c.sub.(queue := c.sub.queue[1..]), consumed := c.consumed + [c.sub.queue[0]]))
    || (!closed && d == c.(sub := if c.registered then c.sub.Unsubscribe() else c.sub, registered := false))
    || d == c.(sub := c.sub.(loopOpen := false))
  }

  ghost predicate ClientStep(s: Sys, t: Sys, i: nat) {
    && i < |s.clients| == |t.clients|
    && ClientMove(s.maxLines, s.closed, s.clients[i], t.clients[i])
    && t == s.(clients := s.clients[i := t.clients[i]])
  }

  ghost predicate Step(s: Sys, t: Sys) {
    || (exists message :: AppendStep(s, t, message))
    || SubscribeStep(s, t)
    || (exists i :: ClientStep(s, t, i))
    || t == s.(closed := true)
  }

  ghost predicate IsRun(run: seq<Sys>) {
    && |run| > 0 && Init(run[0])
    && forall i :: 0 <= i < |run| - 1 ==> Step(run[i], run[i + 1])
  }

  // ---------------------------------------------------------------- the window

  function Window(log: seq<LogEvent>, maxLines: nat): seq<LogEvent> {
    if |log| <= maxLines then log else log[|log| - maxLines..]
  }

  /** Sequence numbers count the events from 1. */
  ghost predicate Numbered(log: seq<LogEvent>) {
    forall k :: 0 <= k < |log| ==> log[k].sequence == k + 1
  }

  /** Consecutive sequence numbers, the first being `first`. */
  ghost predicate Consecutive(events: seq<LogEvent>, first: nat) {
    forall k :: 0 <= k < |events| ==> events[k].sequence == first + k
  }

  lemma {:induction false} LastOfConsecutive(events: seq<LogEvent>, first: nat)
    requires Consecutive(events, first)
    ensures LastSequence(events) == if |events| == 0 then 0 else first + |events| - 1
  {
    if |events| > 0 {
      LastOfConsecutive(events[..|events| - 1], first);
    }
  }

  lemma {:induction false} NewerOfConsecutive(events: seq<LogEvent>, first: nat, limit: int)
    requires Consecutive(events, first)
    ensures Newer(events, limit) ==
            if limit < first then events
            else if limit - first + 1 < |events| then events[limit - first + 1..] else []
  {
    if |events| > 0 {
      var init := events[..|events| - 1];
      NewerOfConsecutive(init, first, limit);
      assert events == init + [events[|events| - 1]];
    }
  }

  lemma WindowIsConsecutive(log: seq<LogEvent>, maxLines: nat)
    requires Numbered(log)
    ensures var rows := Window(log, maxLines); Consecutive(rows, |log| - |rows| + 1)
  {
  }

  lemma WindowSlides(log: seq<LogEvent>, maxLines: nat, event: LogEvent)
    requires 0 < maxLines <= |log|
    ensures Window(log + [event], maxLines) == (Window(log, maxLines) + [event])[1..]
  {
  }

  /** Inserting a message numbers it next and keeps the window the last `maxLines` messages. */
  lemma InsertKeepsWindow(log: seq<LogEvent>, maxLines: nat, message: string)
    requires Numbered(log) && maxLines > 0
    ensures var rows := Window(log, maxLines);
            var event := LogEvent(|log| + 1, message);
            && NextEvent(rows, message) == event
            && InsertRow(rows, maxLines, message) == Window(log + [event], maxLines)
  {
    hide LastSequence, Newer;
    var rows := Window(log, maxLines);
    var first := |log| - |rows| + 1;
    WindowIsConsecutive(log, maxLines);
    LastOfConsecutive(rows, first);
    var event := NextEvent(rows, message);
    NewerOfConsecutive(rows + [event], first, event.sequence - maxLines);
    if |log| >= maxLines {
      WindowSlides(log, maxLines, event);
    }
  }

  // ---------------------------------------------------------------- the invariant

  /** The items are the events of the log from `start` on, in order and without a gap. */
  ghost predicate Follows(items: seq<Item>, log: seq<LogEvent>, start: nat) {
    && start + |items| <= |log|
    && forall k :: 0 <= k < |items| ==> items[k] == Live(log[start + k])
  }

  predicate Marked(items: seq<Item>) {
    |items| > 0 && items[|items| - 1].Overflow?
  }

  /** Such a stretch of the log, or one ended by the overflow mark. */
  ghost predicate Stream(items: seq<Item>, log: seq<LogEvent>, start: nat) {
    if Marked(items) then Follows(items[..|items| - 1], log, start) else Follows(items, log, start)
  }

  ghost predicate ClientOk(maxLines: nat, log: seq<LogEvent>, c: Client) {
    var arrived := c.consumed + c.sub.queue;
    var all := arrived + c.sub.staging;
    && c.registered == c.sub.active
    && c.start <= |log| && c.history == Window(log[..c.start], maxLines) && c.cutover == c.start
    && |c.sub.queue| <= maxLines && |c.sub.staging| <= maxLines
    && Stream(arrived, log, c.start)
    && (Marked(arrived) ==> c.sub.overflowed && (c.sub.active ==> c.sub.staging == []))
    && (c.sub.active ==>
          && Stream(all, log, c.start)
          && (c.sub.overflowed <==> Marked(all))
          && (!c.sub.overflowed ==> c.start + |all| == |log|)
          && (c.sub.staging != [] ==> c.sub.drainScheduled))
  }

  ghost predicate Inv(s: Sys) {
    && s.maxLines > 0 && Numbered(s.log) && s.rows == Window(s.log, s.maxLines)
    && forall i :: 0 <= i < |s.clients| ==> ClientOk(s.maxLines, s.log, s.clients[i])
  }

  lemma FollowsMore(items: seq<Item>, log: seq<LogEvent>, start: nat, event: LogEvent)
    requires Follows(items, log, start)
    ensures Follows(items, log + [event], start)
    ensures start + |items| == |log| ==> Follows(items + [Live(event)], log + [event], start)
  {
  }

  lemma StreamMore(items: seq<Item>, log: seq<LogEvent>, start: nat, event: LogEvent)
    requires Stream(items, log, start)
    ensures Stream(items, log + [event], start)
  {
    FollowsMore(if Marked(items) then items[..|items| - 1] else items, log, start, event);
  }

  lemma StageKeeps(maxLines: nat, log: seq<LogEvent>, c: Client, event: LogEvent)
    requires maxLines > 0 && ClientOk(maxLines, log, c)
    ensures ClientOk(maxLines, log + [event], Staged(c, maxLines, event))
  {
    var more, d := log + [event], Staged(c, maxLines, event);
    assert more[..c.start] == log[..c.start];
    var arrived := c.consumed + c.sub.queue;
    var all := arrived + c.sub.staging;
    StreamMore(arrived, log, c.start, event);
    if c.registered {
      StreamMore(all, log, c.start, event);
      if !c.sub.overflowed {
        if |c.sub.staging| >= maxLines {
          assert (arrived + [Overflow])[..|arrived|] == arrived;
        } else {
          FollowsMore(all, log, c.start, event);
          assert arrived + (c.sub.staging + [Live(event)]) == all + [Live(event)];
        }
      }
    }
  }

  lemma DrainKeeps(maxLines: nat, log: seq<LogEvent>, c: Client)
    requires maxLines > 0 && ClientOk(maxLines, log, c) && c.sub.drainScheduled && c.sub.loopOpen
    ensures ClientOk(maxLines, log, c.(sub := c.sub.Drain(maxLines)))
  {
    var sub := c.sub.(drainScheduled := false);
    var arrived := c.consumed + c.sub.queue;
    if c.sub.active && |c.sub.staging| > 0 {
      MoveIsAllOrOverflow(sub, maxLines);
      var all := arrived + c.sub.staging;
      assert c.consumed + (c.sub.queue + c.sub.staging) == all == all + [];
      assert forall k :: 0 <= k < |c.consumed| ==> arrived[k] == c.consumed[k];
      assert (c.consumed + [Overflow])[..|c.consumed|] == c.consumed;
      assert (c.consumed + [Overflow]) + [] == c.consumed + [Overflow];
      if Overflow in c.sub.staging {
        var k :| 0 <= k < |c.sub.staging| && c.sub.staging[k] == Overflow;
        assert all[|arrived| + k] == Overflow;
      }
    }
  }

  lemma ConsumeKeeps(maxLines: nat, log: seq<LogEvent>, c: Client)
    requires maxLines > 0 && ClientOk(maxLines, log, c) && |c.sub.queue| > 0
    ensures ClientOk(maxLines, log, c.(sub := c.sub.(queue := c.sub.queue[1..]), consumed := c.consumed + [c.sub.queue[0]]))
  {
    assert c.consumed + [c.sub.queue[0]] + c.sub.queue[1..] == c.consumed + c.sub.queue;
  }

  lemma ClientMoveKeeps(maxLines: nat, log: seq<LogEvent>, closed: bool, c: Client, d: Client)
    requires maxLines > 0 && ClientOk(maxLines, log, c) && ClientMove(maxLines, closed, c, d)
    ensures ClientOk(maxLines, log, d)
  {
    if c.sub.drainScheduled && c.sub.loopOpen && d == c.(sub := c.sub.Drain(maxLines)) {
      DrainKeeps(maxLines, log, c);
    } else if |c.sub.queue| > 0 && d != c.(sub := c.sub.(loopOpen := false)) && d.consumed != c.consumed {
      ConsumeKeeps(maxLines, log, c);
    }
  }

  lemma AppendKeeps(s: Sys, t: Sys, message: string)
    requires Inv(s) && AppendStep(s, t, message)
    ensures Inv(t)
  {
    InsertKeepsWindow(s.log, s.maxLines, message);
    forall i | 0 <= i < |t.clients| ensures ClientOk(t.maxLines, t.log, t.clients[i]) {
      StageKeeps(s.maxLines, s.log, s.clients[i], NextEvent(s.rows, message));
    }
  }

  lemma ClientStepKeeps(s: Sys, t: Sys, i: nat)
    requires Inv(s) && ClientStep(s, t, i)
    ensures Inv(t)
  {
    ClientMoveKeeps(s.maxLines, s.log, s.closed, s.clients[i], t.clients[i]);
  }

  lemma StepKeepsInv(s: Sys, t: Sys)
    requires Inv(s) && Step(s, t)
    ensures Inv(t)
  {
    if message :| AppendStep(s, t, message) {
      AppendKeeps(s, t, message);
    } else if SubscribeStep(s, t) {
      assert s.log[..|s.log|] == s.log;
    } else if exists i :: ClientStep(s, t, i) {
      var i: nat :| ClientStep(s, t, i);
      ClientStepKeeps(s, t, i);
    }
  }

  lemma {:induction false} RunKeepsInv(run: seq<Sys>, i: nat)
    requires IsRun(run) && i < |run|
    ensures Inv(run[i])
  {
    if i > 0 {
      RunKeepsInv(run, i - 1);
      StepKeepsInv(run[i - 1], run[i]);
    }
  }

  // ---------------------------------------------------------------- what a client sees

  /** What the websocket sends of the items it takes from the queue: it stops at the overflow mark. */
  function Passed(items: seq<Item>, cutover: nat): seq<LogEvent> {
    if |items| == 0 || items[0].Overflow? then []
    else (if items[0].event.sequence > cutover then [items[0].event] else []) + Passed(items[1..], cutover)
  }

  function Sent(c: Client): seq<LogEvent> { c.history + Passed(c.consumed, c.cutover) }

  /** How many live events the client has taken. */
  function Taken(c: Client): nat {
    if Marked(c.consumed) then |c.consumed| - 1 else |c.consumed|
  }

  lemma {:induction false} PassedIsAll(items: seq<Item>, mark: seq<Item>, log: seq<LogEvent>, start: nat, cutover: nat)
    requires Numbered(log) && Follows(items, log, start) && cutover <= start
    requires mark == [] || mark == [Overflow]
    ensures Passed(items + mark, cutover) == log[start..start + |items|]
  {
    if |items| > 0 {
      assert (items + mark)[1..] == items[1..] + mark;
      PassedIsAll(items[1..], mark, log, start + 1, cutover);
      assert log[start..start + |items|] == [log[start]] + log[start + 1..start + |items|];
    }
  }

  lemma ConsumedIsStream(maxLines: nat, log: seq<LogEvent>, c: Client)
    requires ClientOk(maxLines, log, c)
    ensures Stream(c.consumed, log, c.start)
    ensures Marked(c.consumed) ==> c.sub.queue == []
  {
    var arrived := c.consumed + c.sub.queue;
    assert forall k :: 0 <= k < |c.consumed| ==> arrived[k] == c.consumed[k];
  }

  lemma PassedIsTaken(maxLines: nat, log: seq<LogEvent>, c: Client)
    requires Numbered(log) && ClientOk(maxLines, log, c)
    ensures c.start + Taken(c) <= |log|
    ensures Passed(c.consumed, c.cutover) == log[c.start..c.start + Taken(c)]
  {
    ConsumedIsStream(maxLines, log, c);
    var items := c.consumed[..Taken(c)];
    var mark := c.consumed[Taken(c)..];
    assert c.consumed == items + mark;
    PassedIsAll(items, mark, log, c.start, c.cutover);
  }

  /**
    In every interleaving, history followed by the consumed live events is one gap-free, duplicate-free, in-order
    stretch of the log; the history part is exactly the last min(n, max_lines) events at subscription,
    and the cut-over filter discards nothing.
   */
  lemma SentIsGapFree(run: seq<Sys>, i: nat, k: nat)
    requires IsRun(run) && i < |run| && k < |run[i].clients|
    ensures var s, c := run[i], run[i].clients[k];
            && |c.history| == (if c.start <= s.maxLines then c.start else s.maxLines)
            && c.start + Taken(c) <= |s.log|
            && Sent(c) == s.log[c.start - |c.history|..c.start + Taken(c)]
            && Consecutive(Sent(c), c.start - |c.history| + 1)
  {
    RunKeepsInv(run, i);
    var s, c := run[i], run[i].clients[k];
    assert ClientOk(s.maxLines, s.log, c);
    PassedIsTaken(s.maxLines, s.log, c);
  }

  /** If the client meets the overflow mark, that is the last thing its queue ever gives it. */
  lemma NothingAfterOverflow(run: seq<Sys>, i: nat, k: nat, m: nat)
    requires IsRun(run) && i < |run| && k < |run[i].clients|
    requires m < |run[i].clients[k].consumed| && run[i].clients[k].consumed[m].Overflow?
    ensures var c := run[i].clients[k]; m == |c.consumed| - 1 && c.sub.queue == []
  {
    RunKeepsInv(run, i);
    var s, c := run[i], run[i].clients[k];
    assert ClientOk(s.maxLines, s.log, c);
    ConsumedIsStream(s.maxLines, s.log, c);
  }

  /**
    Nothing is dropped silently: while a client is subscribed, whatever it has not consumed waits in its queue or,
    with a drain scheduled, in its staging, unless the overflow mark waits there or was met.
   */
  lemma NothingIsDroppedSilently(run: seq<Sys>, i: nat, k: nat)
    requires IsRun(run) && i < |run| && k < |run[i].clients| && run[i].clients[k].registered
    ensures var s, c := run[i], run[i].clients[k];
            && (c.sub.staging != [] ==> c.sub.drainScheduled)
            && (Marked(c.consumed + c.sub.queue + c.sub.staging)
                || (c.start + |c.consumed| + |c.sub.queue| + |c.sub.staging| == |s.log|
                    && Follows(c.consumed + c.sub.queue + c.sub.staging, s.log, c.start)))
  {
    RunKeepsInv(run, i);
    assert ClientOk(run[i].maxLines, run[i].log, run[i].clients[k]);
  }

  /** Staging and queue never hold more than `max_lines` items, nor the table more rows. */
  lemma BuffersAreBounded(run: seq<Sys>, i: nat, k: nat)
    requires IsRun(run) && i < |run| && k < |run[i].clients|
    ensures var s, c := run[i], run[i].clients[k];
            |c.sub.queue| <= s.maxLines && |c.sub.staging| <= s.maxLines && |s.rows| <= s.maxLines
  {
    RunKeepsInv(run, i);
    assert ClientOk(run[i].maxLines, run[i].log, run[i].clients[k]);
  }

  /** The table always holds exactly the last min(n, max_lines) messages, numbered from 1. */
  lemma HistoryIsTheLastEvents(run: seq<Sys>, i: nat)
    requires IsRun(run) && i < |run|
    ensures var log, rows := run[i].log, run[i].rows;
            && |rows| == (if |log| <= run[i].maxLines then |log| else run[i].maxLines)
            && rows == log[|log| - |rows|..]
            && forall k :: 0 <= k < |log| ==> log[k].sequence == k + 1
  {
    RunKeepsInv(run, i);
  }

  lemma {:induction false} LogGrows(run: seq<Sys>, i: nat, j: nat)
    requires IsRun(run) && i <= j < |run|
    ensures run[i].log <= run[j].log
    decreases j
  {
    if i < j {
      LogGrows(run, i, j - 1);
      assert Step(run[j - 1], run[j - 1 + 1]);
    }
  }

  /**
    The n-th appended message is number n wherever it shows: in the table, in the history a client was given
    and in what it is sent.
   */
  lemma MessagesKeepTheirNumbers(run: seq<Sys>, i: nat, j: nat, message: string, event: LogEvent)
    requires IsRun(run) && i < j < |run| && AppendStep(run[i], run[i + 1], message)
    requires event.sequence == |run[i].log| + 1
    ensures event in run[j].rows ==> event.message == message
    ensures forall c <- run[j].clients :: event in Sent(c) ==> event.message == message
  {
    LogGrows(run, i + 1, j);
    HistoryIsTheLastEvents(run, j);
    forall c | c in run[j].clients && event in Sent(c) ensures event.message == message {
      var k :| 0 <= k < |run[j].clients| && run[j].clients[k] == c;
      SentIsGapFree(run, j, k);
    }
  }

  /** What one append does to each client: it is staged, or marks the overflow, or finds that the client's loop is gone. */
  lemma StagedAtEveryAppend(run: seq<Sys>, i: nat, k: nat, message: string)
    requires IsRun(run) && i + 1 < |run| && AppendStep(run[i], run[i + 1], message) && k < |run[i].clients|
    ensures var c, d := run[i].clients[k], run[i + 1].clients[k];
            && d.sub.queue == c.sub.queue && d.consumed == c.consumed && d.history == c.history
            && d.sub.staging == (
                 if !c.registered || c.sub.overflowed then c.sub.staging
                 else if |c.sub.staging| == run[i].maxLines then [Overflow]
                 else c.sub.staging + [Live(LogEvent(|run[i].log| + 1, message))])
            && d.registered == (c.registered && (c.sub.overflowed || c.sub.drainScheduled || c.sub.loopOpen))
            && (c.registered && !c.sub.overflowed ==> d.sub.drainScheduled)
  {
    RunKeepsInv(run, i);
    InsertKeepsWindow(run[i].log, run[i].maxLines, message);
    assert ClientOk(run[i].maxLines, run[i].log, run[i].clients[k]);
  }

  /** The client gets nothing: it is not registered, and its consumed and queued items are the same. */
  ghost predicate Silent(c: Client, d: Client) {
    !d.registered && d.consumed + d.sub.queue == c.consumed + c.sub.queue
  }

  lemma SilentMove(maxLines: nat, closed: bool, c: Client, d: Client)
    requires !c.registered && !c.sub.active && ClientMove(maxLines, closed, c, d)
    ensures Silent(c, d)
  {
    if |c.sub.queue| > 0 {
      assert c.consumed + [c.sub.queue[0]] + c.sub.queue[1..] == c.consumed + c.sub.queue;
    }
  }

  lemma SilentStep(s: Sys, t: Sys, k: nat)
    requires Inv(s) && Step(s, t) && k < |s.clients| && !s.clients[k].registered
    ensures k < |t.clients| && Silent(s.clients[k], t.clients[k])
  {
    hide ClientMove, InsertRow, NextEvent, Window, Stream, Numbered;
    assert ClientOk(s.maxLines, s.log, s.clients[k]);
    if i: nat :| ClientStep(s, t, i) {
      if i == k { SilentMove(s.maxLines, s.closed, s.clients[k], t.clients[k]); }
    }
  }

  /** Once a client is unsubscribed, or dropped, nothing more reaches its queue. */
  lemma {:induction false} NothingAfterUnsubscribe(run: seq<Sys>, i: nat, j: nat, k: nat)
    requires IsRun(run) && i <= j < |run| && k < |run[i].clients| && !run[i].clients[k].registered
    ensures k < |run[j].clients| && Silent(run[i].clients[k], run[j].clients[k])
    decreases j
  {
    hide Step, Inv;
    if i < j {
      NothingAfterUnsubscribe(run, i, j - 1, k);
      RunKeepsInv(run, j - 1);
      SilentStep(run[j - 1], run[j], k);
    }
  }
}
