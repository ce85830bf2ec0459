/**
  The debug command broker: a queue of numbered requests between HTTP callers and the dispatcher of one debug
  session, with one response future per request.
 */
module Broker {
  import opened Wrappers

  /** A response future: open, or completed by the dispatcher, by close, or by its caller giving up. */
  datatype Outcome = Open | Result | Raised | BrokerClosed | Cancelled

  datatype Item = Command(id: nat) | ClosedMarker

  /** What `receive` comes back with; `Nothing` when it would go on polling an empty queue. */
  datatype Received = Got(id: nat) | ClosedError | Nothing

  datatype BrokerState = BrokerState(queue: seq<Item>, closed: bool, responses: seq<Outcome>) {
    predicate Valid() {
      forall i :: 0 <= i < |queue| && queue[i].Command? ==> queue[i].id < |responses|
    }

    /** A request is accepted, with the next number, unless the broker is closed. */
    function Request(): (BrokerState, Option<nat>) {
      if closed then (this, None)
      else (this.(queue := queue + [Command(|responses|)], responses := responses + [Open]), Some(|responses|))
    }

    function Complete(id: nat, outcome: Outcome): BrokerState
      requires id < |responses|
    {
      if responses[id].Open? then this.(responses := responses[id := outcome]) else this
    }

    function Pop(): BrokerState
      requires |queue| > 0
    {
      this.(queue := queue[1..])
    }

    function Receive(): (BrokerState, Received)
      requires Valid()
      decreases |queue|
    {
      if |queue| == 0 then (this, if closed then ClosedError else Nothing)
      else if queue[0].ClosedMarker? then (Pop(), ClosedError)
      else if responses[queue[0].id].Cancelled? then Pop().Receive()
      else (Pop(), Got(queue[0].id))
    }

    /** Every queued request that is still open fails, and only the marker is left to receive. */
    function Close(): BrokerState {
      if closed then this
      else
        BrokerState([ClosedMarker], true, seq(|responses|, i requires 0 <= i < |responses| =>
          if Command(i) in queue && responses[i].Open? then BrokerClosed else responses[i]))
    }
  }

  /** Given up by its caller before anybody took it. */
  predicate GivenUp(b: BrokerState, item: Item)
    requires item.Command? ==> item.id < |b.responses|
  {
    item.Command? && b.responses[item.id].Cancelled?
  }

  /**
    Receiving passes over exactly the requests at the front that were given up, and takes what comes next: a live
    request, or the end of the broker.
   */
  lemma {:induction false} ReceiveTakesTheFirstLive(b: BrokerState, n: nat)
    requires b.Valid() && n <= |b.queue|
    requires forall i :: 0 <= i < n ==> GivenUp(b, b.queue[i])
    requires n < |b.queue| ==> !GivenUp(b, b.queue[n])
    ensures b.Receive() ==
            if n == |b.queue| then (b.(queue := []), if b.closed then ClosedError else Nothing)
            else (b.(queue := b.queue[n + 1..]), if b.queue[n].Command? then Got(b.queue[n].id) else ClosedError)
    decreases n
  {
    if n > 0 {
      var c := b.Pop();
      assert GivenUp(b, b.queue[0]);
      assert forall i :: 0 <= i < |c.queue| ==> c.queue[i] == b.queue[i + 1];
      ReceiveTakesTheFirstLive(c, n - 1);
    } else if |b.queue| == 0 {
      assert b.queue == [];
    }
  }

  class DebugCommandBroker {
    var queue: seq<Item>
    var closed: bool
    var responses: seq<Outcome>

    function View(): BrokerState
      reads this
    {
      BrokerState(queue, closed, responses)
    }

    constructor ()
      ensures View() == BrokerState([], false, [])
    {
      queue, closed, responses := [], false, [];
    }

    method Request() returns (id: Option<nat>)
      requires View().Valid()
      modifies this
      ensures View().Valid() && (View(), id) == old(View()).Request()
    {
      if closed {
        return None;
      }
      id := Some(|responses|);
      responses := responses + [Open];
      queue := queue + [Command(id.value)];
    }

    method Receive() returns (r: Received)
      requires View().Valid()
      modifies this
      ensures View().Valid() && (View(), r) == old(View()).Receive()
    {
      while |queue| > 0
        invariant View().Valid() && View().Receive() == old(View()).Receive()
        decreases |queue|
      {
        var item := queue[0];
        queue := queue[1..];
        if item.ClosedMarker? {
          return ClosedError;
        }
        if !responses[item.id].Cancelled? {
          return Got(item.id);
        }
      }
      return if closed then ClosedError else Nothing;
    }

    /** `resolve`, `reject` and a caller's time-out: a future that is done stays as it is. */
    method Complete(id: nat, outcome: Outcome)
      requires View().Valid() && id < |responses|
      modifies this`responses
      ensures View().Valid() && View() == old(View()).Complete(id, outcome)
    {
      if responses[id].Open? {
        responses := responses[id := outcome];
      }
    }

    method Close()
      requires View().Valid()
      modifies this
      ensures View().Valid() && View() == old(View()).Close()
    {
      if closed {
        return;
      }
      closed := true;
      ghost var before, commands := responses, queue;
      var pending: seq<Item> := [];
      while |queue| > 0
        invariant |pending| + |queue| <= |commands|
        invariant closed && responses == before && View().Valid()
        invariant forall c <- pending :: c.Command? && c.id < |responses|
        invariant forall i: nat :: Command(i) in commands <==> Command(i) in pending || Command(i) in queue
        decreases |queue|
      {
        var item := queue[0];
        assert queue == [item] + queue[1..];
        queue := queue[1..];
        if item.Command? {
          pending := pending + [item];
        }
      }
      var n := 0;
      while n < |pending|
        invariant 0 <= n <= |pending| && closed && queue == [] && |responses| == |before|
        invariant forall i: nat | i < |before| ::
                    responses[i] == (if Command(i) in pending[..n] && before[i].Open? then BrokerClosed else before[i])
      {
        assert pending[..n + 1] == pending[..n] + [pending[n]];
        assert pending[n] in pending;
        var item := pending[n];
        Complete(item.id, BrokerClosed);
        n := n + 1;
      }
      assert pending[..n] == pending;
      queue := queue + [ClosedMarker];
    }
  }
}
