/**
  The task log service: a bounded window of rows per task, and for every subscriber a staging deque
  filled under the service lock and a bounded queue filled on the subscriber's event loop.
 */
module LogRelay {
  import opened Wrappers

  datatype LogEvent = LogEvent(sequence: nat, message: string)

  /** What travels to a subscriber: an event, or the mark that events were dropped. */
  datatype Item = Live(event: LogEvent) | Overflow

  // ---------------------------------------------------------------- rows

  function LastSequence(rows: seq<LogEvent>): nat {
    if |rows| == 0 then 0
    else
      var rest := LastSequence(rows[..|rows| - 1]);
      if rest < rows[|rows| - 1].sequence then rows[|rows| - 1].sequence else rest
  }

  /** The rows left after deleting every sequence up to `limit`. */
  function Newer(rows: seq<LogEvent>, limit: int): seq<LogEvent> {
    if |rows| == 0 then []
    else
      var rest := Newer(rows[..|rows| - 1], limit);
      if rows[|rows| - 1].sequence > limit then rest + [rows[|rows| - 1]] else rest
  }

  function NextEvent(rows: seq<LogEvent>, message: string): LogEvent {
    LogEvent(LastSequence(rows) + 1, message)
  }

  function InsertRow(rows: seq<LogEvent>, maxLines: nat, message: string): seq<LogEvent> {
    var event := NextEvent(rows, message);
    Newer(rows + [event], event.sequence - maxLines)
  }

  /** It is above every row's number, and one row has exactly the number before it unless there is no row. */
  lemma {:induction false} LastSequenceIsLargest(rows: seq<LogEvent>)
    ensures forall row <- rows :: row.sequence <= LastSequence(rows)
    ensures LastSequence(rows) == 0 || exists row <- rows :: row.sequence == LastSequence(rows)
  {
    if |rows| > 0 {
      var init, last := rows[..|rows| - 1], rows[|rows| - 1];
      LastSequenceIsLargest(init);
      assert rows == init + [last];
      assert last in rows;
    }
  }

  lemma {:induction false} NewerRows(rows: seq<LogEvent>, limit: int, row: LogEvent)
    ensures row in Newer(rows, limit) <==> row in rows && row.sequence > limit
  {
    if |rows| > 0 {
      var init, last := rows[..|rows| - 1], rows[|rows| - 1];
      NewerRows(init, limit, row);
      assert rows == init + [last];
    }
  }

  lemma NewestRows(rows: seq<LogEvent>, maxLines: nat, message: string)
    ensures var event := NextEvent(rows, message);
            forall row :: row in InsertRow(rows, maxLines, message) <==>
              (row in rows || row == event) && row.sequence > event.sequence - maxLines
  {
    var event := NextEvent(rows, message);
    forall row ensures row in InsertRow(rows, maxLines, message) <==>
        (row in rows || row == event) && row.sequence > event.sequence - maxLines {
      NewerRows(rows + [event], event.sequence - maxLines, row);
    }
  }

  // ---------------------------------------------------------------- one subscriber

  datatype Sub = Sub(
    queue: seq<Item>, staging: seq<Item>, drainScheduled: bool, overflowed: bool, active: bool, loopOpen: bool)
  {
    /** Stage one event; false when the subscriber's loop is gone. */
    function Stage(maxLines: nat, event: LogEvent): (Sub, bool) {
      if overflowed then (this, true)
      else
        var staged := if |staging| >= maxLines then this.(staging := [Overflow], overflowed := true)
                      else this.(staging := staging + [Live(event)]);
        if drainScheduled then (staged, true)
        else (staged.(drainScheduled := true, active := active && loopOpen), loopOpen)
    }

    /** Move staged items over one by one; an overflow mark or a full queue drops everything for the mark. */
    function Move(maxLines: nat): Sub
      decreases |staging|
    {
      if |staging| == 0 then this
      else if staging[0].Overflow? || |queue| >= maxLines then
        this.(queue := [Overflow], staging := [], overflowed := true)
      else this.(queue := queue + [staging[0]], staging := staging[1..]).Move(maxLines)
    }

    function Drain(maxLines: nat): Sub {
      var idle := this.(drainScheduled := false);
      if active then idle.Move(maxLines) else idle.(staging := [])
    }

    function Unsubscribe(): Sub { this.(active := false, staging := []) }
  }

  function NewSub(): Sub { Sub([], [], false, false, true, true) }

  /**
    Draining delivers all or marks the loss: if the queue has room for everything staged it all arrives in
    order, otherwise (or when the mark was staged) the queue holds the overflow mark alone.
   */
  lemma {:induction false} MoveIsAllOrOverflow(s: Sub, maxLines: nat)
    requires |s.queue| <= maxLines
    ensures var fits := Overflow !in s.staging && |s.queue| + |s.staging| <= maxLines;
            s.Move(maxLines) ==
            if fits || |s.staging| == 0 then s.(queue := s.queue + s.staging, staging := [])
            else s.(queue := [Overflow], staging := [], overflowed := true)
    decreases |s.staging|
  {
    if |s.staging| == 0 {
      assert s.queue + s.staging == s.queue;
      assert s.staging == [];
    } else if !(s.staging[0].Overflow? || |s.queue| >= maxLines) {
      var first, rest := s.staging[0], s.staging[1..];
      assert s.staging == [first] + rest;
      MoveIsAllOrOverflow(s.(queue := s.queue + [first], staging := rest), maxLines);
      assert s.queue + [first] + rest == s.queue + s.staging;
      assert Overflow in s.staging <==> Overflow in rest;
    } else {
      assert s.staging[0].Overflow? ==> Overflow in s.staging;
    }
  }

  /** What a drain leaves: nothing for a subscriber that is gone, otherwise all or the mark; and the next one may be scheduled. */
  lemma DrainedExactly(s: Sub, maxLines: nat)
    requires |s.queue| <= maxLines
    ensures s.Drain(maxLines) ==
            if !s.active then s.(staging := [], drainScheduled := false)
            else if s.staging == [] || (Overflow !in s.staging && |s.queue| + |s.staging| <= maxLines)
            then s.(queue := s.queue + s.staging, staging := [], drainScheduled := false)
            else s.(queue := [Overflow], staging := [], overflowed := true, drainScheduled := false)
  {
    MoveIsAllOrOverflow(s.(drainScheduled := false), maxLines);
  }

  // ---------------------------------------------------------------- the objects

  class LogSubscriber {
    var queue: seq<Item>
    var staging: seq<Item>
    var drainScheduled: bool
    var overflowed: bool
    var active: bool
    var loopOpen: bool

    function View(): Sub
      reads this
    {
      Sub(queue, staging, drainScheduled, overflowed, active, loopOpen)
    }

    constructor ()
      ensures View() == NewSub()
    {
      queue, staging := [], [];
      drainScheduled, overflowed, active, loopOpen := false, false, true, true;
    }
  }

  class TaskLogService {
    const maxLines: nat
    var rows: map<string, seq<LogEvent>>
    var subscribers: map<string, set<LogSubscriber>>
    var closed: bool

    function RowsOf(key: string): seq<LogEvent>
      reads this
    {
      if key in rows then rows[key] else []
    }

    function SubscribersOf(key: string): set<LogSubscriber>
      reads this
    {
      if key in subscribers then subscribers[key] else {}
    }

    constructor (maxLines: nat)
      requires maxLines > 0
      ensures this.maxLines == maxLines && !closed && rows == map[] && subscribers == map[]
    {
      this.maxLines, closed, rows, subscribers := maxLines, false, map[], map[];
    }

    method StageEvent(subscriber: LogSubscriber, event: LogEvent) returns (live: bool)
      modifies subscriber
      ensures (subscriber.View(), live) == old(subscriber.View()).Stage(maxLines, event)
    {
      if subscriber.overflowed {
        return true;
      }
      if |subscriber.staging| >= maxLines {
        subscriber.staging := [Overflow];
        subscriber.overflowed := true;
      } else {
        subscriber.staging := subscriber.staging + [Live(event)];
      }
      if subscriber.drainScheduled {
        return true;
      }
      subscriber.drainScheduled := true;
      if !subscriber.loopOpen {
        subscriber.active := false;
        return false;
      }
      return true;
    }

    method StageAll(all: set<LogSubscriber>, event: LogEvent) returns (stale: set<LogSubscriber>)
      modifies all
      ensures forall s <- all :: s.View() == old(s.View()).Stage(maxLines, event).0
      ensures stale <= all
      ensures forall s <- all :: s in stale <==> !old(s.View()).Stage(maxLines, event).1
    {
      var waiting := all;
      stale := {};
      while waiting != {}
        invariant waiting <= all && stale <= all - waiting
        invariant forall s <- all - waiting :: s.View() == old(s.View()).Stage(maxLines, event).0
        invariant forall s <- all - waiting :: s in stale <==> !old(s.View()).Stage(maxLines, event).1
        invariant forall s <- waiting :: s.View() == old(s.View())
        decreases |waiting|
      {
        var subscriber :| subscriber in waiting;
        var live := StageEvent(subscriber, event);
        if !live {
          stale := stale + {subscriber};
        }
        waiting := waiting - {subscriber};
      }
    }

    /** Insert the row and stage the event with every subscriber; `stored` says whether the transaction commits. */
    method Append(key: string, message: string, stored: bool) returns (r: Option<LogEvent>)
      modifies this, SubscribersOf(key)
      ensures closed == old(closed)
      ensures r.Some? <==> !old(closed) && stored
      ensures r.None? ==> rows == old(rows) && subscribers == old(subscribers)
      ensures r.None? ==> forall s <- old(SubscribersOf(key)) :: s.View() == old(s.View())
      ensures r.Some? ==> r.value == NextEvent(old(RowsOf(key)), message)
      ensures r.Some? ==> r.value.message == message
      ensures r.Some? ==> forall row <- old(RowsOf(key)) :: row.sequence < r.value.sequence
      ensures r.Some? ==> r.value.sequence == 1 || exists row <- old(RowsOf(key)) :: row.sequence + 1 == r.value.sequence
      ensures r.Some? ==> rows == old(rows)[key := InsertRow(old(RowsOf(key)), maxLines, message)]
      ensures r.Some? ==> forall row :: row in RowsOf(key) <==>
                (row in old(RowsOf(key)) || row == r.value) && row.sequence > r.value.sequence - maxLines
      ensures r.Some? ==> forall s <- old(SubscribersOf(key)) ::
                s.View() == old(s.View()).Stage(maxLines, r.value).0
      ensures r.Some? ==> forall other | other != key :: other in subscribers <==> other in old(subscribers)
      ensures r.Some? ==> forall other <- old(subscribers) | other != key :: subscribers[other] == old(subscribers)[other]
      ensures r.Some? ==> SubscribersOf(key) <= old(SubscribersOf(key))
      ensures r.Some? ==> forall s <- old(SubscribersOf(key)) ::
                s in SubscribersOf(key) <==> old(s.View()).Stage(maxLines, r.value).1
    {
      if closed || !stored {
        return None;
      }
      var event := NextEvent(RowsOf(key), message);
      LastSequenceIsLargest(RowsOf(key));
      NewestRows(RowsOf(key), maxLines, message);
      rows := rows[key := InsertRow(RowsOf(key), maxLines, message)];
      var stale := StageAll(SubscribersOf(key), event);
      if stale != {} {
        subscribers := subscribers[key := subscribers[key] - stale];
      }
      return Some(event);
    }

    /** Runs on the subscriber's own loop. */
    method DrainSubscriber(subscriber: LogSubscriber)
      modifies subscriber
      ensures subscriber.View() == old(subscriber.View()).Drain(maxLines)
    {
      subscriber.drainScheduled := false;
      if !subscriber.active {
        subscriber.staging := [];
        return;
      }
      ghost var start := subscriber.View();
      while |subscriber.staging| > 0
        invariant subscriber.active && !subscriber.drainScheduled
        invariant subscriber.View().Move(maxLines) == start.Move(maxLines)
        decreases |subscriber.staging|
      {
        var item := subscriber.staging[0];
        ghost var before := subscriber.View();
        subscriber.staging := subscriber.staging[1..];
        if item.Overflow? || |subscriber.queue| >= maxLines {
          subscriber.queue := [Overflow];
          subscriber.staging := [];
          subscriber.overflowed := true;
          assert subscriber.View() == before.Move(maxLines);
          return;
        }
        subscriber.queue := subscriber.queue + [item];
        assert subscriber.View().Move(maxLines) == before.Move(maxLines);
      }
    }

    method History(key: string) returns (r: Option<seq<LogEvent>>)
      ensures r == if closed then None else Some(RowsOf(key))
    {
      if closed {
        return None;
      }
      return Some(RowsOf(key));
    }

    /** The history and the registration happen under one lock; the cut-over is the last history sequence. */
    method SubscribeWithHistory(key: string)
      returns (subscriber: LogSubscriber?, history: seq<LogEvent>, cutover: nat)
      modifies this
      ensures closed == old(closed) && rows == old(rows)
      ensures subscriber == null <==> closed
      ensures subscriber == null ==> subscribers == old(subscribers)
      ensures subscriber != null ==>
                && fresh(subscriber) && subscriber.View() == NewSub()
                && subscribers == old(subscribers)[key := old(SubscribersOf(key)) + {subscriber}]
                && history == RowsOf(key) && cutover == Cutover(history)
    {
      history, cutover := [], 0;
      if closed {
        return null, history, cutover;
      }
      subscriber := new LogSubscriber();
      history := RowsOf(key);
      subscribers := subscribers[key := SubscribersOf(key) + {subscriber}];
      cutover := if |history| > 0 then history[|history| - 1].sequence else 0;
    }

    method Unsubscribe(key: string, subscriber: LogSubscriber)
      modifies this, subscriber
      ensures closed == old(closed) && rows == old(rows)
      ensures closed ==> subscribers == old(subscribers) && subscriber.View() == old(subscriber.View())
      ensures !closed ==> subscribers == old(subscribers)[key := old(SubscribersOf(key)) - {subscriber}]
      ensures !closed ==>
                && (subscriber in old(SubscribersOf(key)) ==> subscriber.View() == old(subscriber.View()).Unsubscribe())
                && (subscriber !in old(SubscribersOf(key)) ==> subscriber.View() == old(subscriber.View()))
    {
      if closed {
        return;
      }
      var current := SubscribersOf(key);
      if subscriber in current {
        subscriber.active := false;
        subscriber.staging := [];
      }
      subscribers := subscribers[key := current - {subscriber}];
    }

    method Close()
      modifies this`closed
      ensures closed
    {
      closed := true;
    }
  }

  function Cutover(history: seq<LogEvent>): nat {
    if |history| > 0 then history[|history| - 1].sequence else 0
  }
}
