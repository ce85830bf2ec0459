/**
  The NDJSON event stream of a vulnerability scan: an incremental splitter over the chunks of the response with
  three limits, against the split of the whole byte string. Reading one line as JSON is a parameter.
 */
module EventStream {
  import opened Wrappers

  const MAX_EVENT_BYTES: nat := 1024 * 1024
  const MAX_RESPONSE_BYTES: nat := 8 * 1024 * 1024
  const MAX_EVENTS: nat := 10_000

  type Byte = x: int | 0 <= x < 256
  type Bytes = seq<Byte>

  const NEWLINE: Byte := 10

  /** The `type` of an event; looking an unhashable one up in a set raises. */
  datatype Kind = Start | Log | Done | Failure | Other | Unhashable {
    predicate Reported() { Start? || Log? || Done? || Failure? }
  }

  datatype Event = Event(kind: Kind, success: bool, body: string)

  /** A line as a JSON object, or None when it is no JSON or no object. */
  type Reader = Bytes -> Option<Event>

  // ---------------------------------------------------------------- the whole byte string

  function FirstNewline(b: Bytes): (k: nat)
    ensures k <= |b|
    ensures NEWLINE !in b[..k]
    ensures k < |b| ==> b[k] == NEWLINE
  {
    if |b| == 0 || b[0] == NEWLINE then 0
    else
      var k := 1 + FirstNewline(b[1..]);
      assert b[..k] == [b[0]] + b[1..][..k - 1];
      k
  }

  function Lines(b: Bytes): seq<Bytes> {
    var k := FirstNewline(b);
    if k == |b| then [] else [b[..k]] + Lines(b[k + 1..])
  }

  /** What follows the last newline. */
  function Rest(b: Bytes): Bytes {
    var k := FirstNewline(b);
    if k == |b| then b else Rest(b[k + 1..])
  }

  /** What the lines read so far amount to. */
  datatype Progress = Progress(done: Option<Event>, sawError: bool, reported: seq<Kind>)

  /** The `n`th line; None when it, or their number, breaks a rule. */
  function Absorb(p: Progress, line: Bytes, n: nat, reader: Reader): Option<Progress> {
    if n > MAX_EVENTS || |line| > MAX_EVENT_BYTES || reader(line).None? then None
    else
      var event := reader(line).value;
      if event.kind.Unhashable? || (event.kind.Done? && p.done.Some?) then None
      else
        Some(Progress(
               if event.kind.Done? then Some(event) else p.done,
               p.sawError || event.kind.Failure?,
               if event.kind.Reported() then p.reported + [event.kind] else p.reported))
  }

  function AbsorbAll(lines: seq<Bytes>, reader: Reader): Option<Progress> {
    if |lines| == 0 then Some(Progress(None, false, []))
    else
      var before := AbsorbAll(lines[..|lines| - 1], reader);
      if before.None? then None else Absorb(before.value, lines[|lines| - 1], |lines|, reader)
  }

  /** A successful scan: its done event and the event kinds reported on the way. */
  datatype Scan = Succeeded(done: Event, reported: seq<Kind>) | Refused

  function Finish(p: Progress): Scan {
    if p.done.Some? && p.done.value.success && !p.sawError then Succeeded(p.done.value, p.reported) else Refused
  }

  /** What a scan of the whole byte string gives. */
  function Batch(b: Bytes, reader: Reader): Scan {
    var p := AbsorbAll(Lines(b), reader);
    if |b| > MAX_RESPONSE_BYTES || |Rest(b)| > 0 || p.None? then Refused else Finish(p.value)
  }

  function Flatten(chunks: seq<Bytes>): Bytes {
    if |chunks| == 0 then [] else Flatten(chunks[..|chunks| - 1]) + chunks[|chunks| - 1]
  }

  // ---------------------------------------------------------------- splitting and appending

  lemma FirstLine(s: Bytes, line: Bytes, rest: Bytes)
    requires NEWLINE !in line && s == line + [NEWLINE] + rest
    ensures Lines(s) == [line] + Lines(rest) && Rest(s) == Rest(rest)
  {
    var k := FirstNewline(s);
    assert forall j :: 0 <= j < |line| ==> s[j] == line[j];
    assert s[|line|] == NEWLINE && forall j :: 0 <= j < k ==> s[j] in s[..k];
    assert s[..k] == line && s[k + 1..] == rest;
  }

  lemma SplitFirst(a: Bytes, b: Bytes) returns (line: Bytes, rest: Bytes)
    requires FirstNewline(a) < |a|
    ensures |rest| < |a|
    ensures Lines(a) == [line] + Lines(rest) && Lines(a + b) == [line] + Lines(rest + b)
    ensures Rest(a) == Rest(rest) && Rest(a + b) == Rest(rest + b)
  {
    hide Lines, Rest;
    var k := FirstNewline(a);
    line, rest := a[..k], a[k + 1..];
    assert a == line + [NEWLINE] + rest;
    FirstLine(a, line, rest);
    assert a + b == line + [NEWLINE] + (rest + b);
    FirstLine(a + b, line, rest + b);
  }

  /** Splitting goes on where it stopped: only the rest matters for what is appended. */
  lemma {:induction false} SplitAppend(a: Bytes, b: Bytes)
    ensures Lines(a + b) == Lines(a) + Lines(Rest(a) + b)
    ensures Rest(a + b) == Rest(Rest(a) + b)
    decreases |a|
  {
    if FirstNewline(a) == |a| {
      assert Lines(a) + Lines(a + b) == Lines(a + b);
    } else {
      hide Lines, Rest;
      var line, rest := SplitFirst(a, b);
      SplitAppend(rest, b);
      var first, second := Lines(rest), Lines(Rest(a) + b);
      assert [line] + (first + second) == [line] + first + second;
    }
  }

  lemma {:induction false} RestHasNoNewline(b: Bytes)
    ensures NEWLINE !in Rest(b)
    decreases |b|
  {
    var k := FirstNewline(b);
    if k < |b| {
      RestHasNoNewline(b[k + 1..]);
    } else {
      assert b[..k] == b;
    }
  }

  /** An unfinished line that is too long stays too long, whatever follows. */
  lemma LongRestIsRefused(a: Bytes, b: Bytes, reader: Reader)
    requires |Rest(a)| > MAX_EVENT_BYTES
    ensures |Rest(a + b)| > 0 || AbsorbAll(Lines(a + b), reader).None?
  {
    var rest := Rest(a);
    SplitAppend(a, b);
    RestHasNoNewline(a);
    var k := FirstNewline(rest + b);
    if k < |rest + b| {
      assert forall n :: 0 <= n < |rest| ==> (rest + b)[n] == rest[n];
      assert k >= |rest|;
      var line := (rest + b)[..k];
      LongLineIsRefused(Lines(a + b), |Lines(a)|, reader);
    }
  }

  lemma {:induction false} PrefixRefuses(lines: seq<Bytes>, n: nat, reader: Reader)
    requires n <= |lines| && AbsorbAll(lines[..n], reader).None?
    ensures AbsorbAll(lines, reader).None?
    decreases |lines|
  {
    if n == |lines| {
      assert lines[..n] == lines;
    } else {
      var init := lines[..|lines| - 1];
      assert init[..n] == lines[..n];
      PrefixRefuses(init, n, reader);
    }
  }

  lemma RefusedLinesStayRefused(a: Bytes, b: Bytes, reader: Reader)
    requires AbsorbAll(Lines(a), reader).None?
    ensures Batch(a + b, reader) == Refused
  {
    SplitAppend(a, b);
    assert Lines(a + b)[..|Lines(a)|] == Lines(a);
    PrefixRefuses(Lines(a + b), |Lines(a)|, reader);
  }

  lemma LongLineIsRefused(lines: seq<Bytes>, n: nat, reader: Reader)
    requires n < |lines| && |lines[n]| > MAX_EVENT_BYTES
    ensures AbsorbAll(lines, reader).None?
  {
    assert lines[..n + 1][..n] == lines[..n];
    PrefixRefuses(lines, n + 1, reader);
  }

  // ---------------------------------------------------------------- what a successful scan is

  ghost predicate IsDone(line: Bytes, reader: Reader) { reader(line).Some? && reader(line).value.kind.Done? }

  ghost predicate Acceptable(line: Bytes, reader: Reader) {
    |line| <= 1_048_576 && reader(line).Some? && !reader(line).value.kind.Unhashable?
  }

  /** The kinds reported for the lines, in order. */
  function Kinds(lines: seq<Bytes>, reader: Reader): seq<Kind> {
    if |lines| == 0 then []
    else
      var before, event := Kinds(lines[..|lines| - 1], reader), reader(lines[|lines| - 1]);
      if event.Some? && event.value.kind in [Start, Log, Done, Failure] then before + [event.value.kind] else before
  }

  ghost predicate AtMostOneDone(lines: seq<Bytes>, reader: Reader) {
    forall i, j :: 0 <= i < j < |lines| ==> !(IsDone(lines[i], reader) && IsDone(lines[j], reader))
  }

  ghost predicate AllAcceptable(lines: seq<Bytes>, reader: Reader) {
    forall i :: 0 <= i < |lines| ==> Acceptable(lines[i], reader)
  }

  /** All lines are taken exactly under the event-count, size, JSON and single-done conditions. */
  lemma {:induction false} AbsorbedExactly(lines: seq<Bytes>, reader: Reader)
    ensures AbsorbAll(lines, reader).Some? <==>
            |lines| <= MAX_EVENTS && AllAcceptable(lines, reader) && AtMostOneDone(lines, reader)
    ensures AbsorbAll(lines, reader).Some? ==> AbsorbedMeans(lines, AbsorbAll(lines, reader).value, reader)
  {
    if |lines| > 0 {
      var n := |lines| - 1;
      var init, last := lines[..n], lines[n];
      AbsorbedExactly(init, reader);
      assert lines == init + [last];
      if AbsorbAll(init, reader).Some? {
        AbsorbedLast(init, last, reader);
      }
    }
  }

  ghost predicate AbsorbedMeans(lines: seq<Bytes>, p: Progress, reader: Reader) {
    && (forall i :: 0 <= i < |lines| && IsDone(lines[i], reader) ==> p.done == reader(lines[i]))
    && (p.done.Some? ==> exists i :: 0 <= i < |lines| && IsDone(lines[i], reader))
    && (p.sawError <==> exists i :: 0 <= i < |lines| && reader(lines[i]).Some? && reader(lines[i]).value.kind.Failure?)
    && p.reported == Kinds(lines, reader)
  }

  lemma AbsorbedLast(init: seq<Bytes>, last: Bytes, reader: Reader)
    requires AbsorbAll(init, reader).Some? && AbsorbedMeans(init, AbsorbAll(init, reader).value, reader)
    requires |init| <= MAX_EVENTS && AllAcceptable(init, reader) && AtMostOneDone(init, reader)
    ensures var lines := init + [last];
            && (AbsorbAll(lines, reader).Some? <==>
                |lines| <= MAX_EVENTS && AllAcceptable(lines, reader) && AtMostOneDone(lines, reader))
            && (AbsorbAll(lines, reader).Some? ==> AbsorbedMeans(lines, AbsorbAll(lines, reader).value, reader))
  {
    var lines := init + [last];
    var n := |init|;
    assert lines[..n] == init && lines[n] == last;
    assert forall i :: 0 <= i < n ==> lines[i] == init[i];
  }

  /**
    A scan succeeds exactly when the bytes fit, the last line is complete, the lines meet the
    event-count, size, JSON and single-done conditions, and the one done event reports success with no error seen.
   */
  lemma BatchSucceedsExactly(b: Bytes, reader: Reader)
    ensures var lines := Lines(b);
            Batch(b, reader).Succeeded? <==>
            && |b| <= 8_388_608 && Rest(b) == []
            && |lines| <= 10_000 && AllAcceptable(lines, reader) && AtMostOneDone(lines, reader)
            && (exists i :: 0 <= i < |lines| && IsDone(lines[i], reader) && reader(lines[i]).value.success)
            && (forall i :: 0 <= i < |lines| ==> !reader(lines[i]).value.kind.Failure?)
    ensures var lines := Lines(b);
            Batch(b, reader).Succeeded? ==>
            && Batch(b, reader).reported == Kinds(lines, reader)
            && exists i :: 0 <= i < |lines| && IsDone(lines[i], reader) && Batch(b, reader).done == reader(lines[i]).value
  {
    AbsorbedExactly(Lines(b), reader);
  }

  // ---------------------------------------------------------------- the loop

  /** The chunk loop. What it reports before it raises is not part of the result. */
  method ScanChunks(chunks: seq<Bytes>, reader: Reader) returns (r: Scan)
    ensures r == Batch(Flatten(chunks), reader)
  {
    var total := Flatten(chunks);
    var p := Progress(None, false, []);
    var pending: Bytes := [];
    var received, eventCount, i := 0, 0, 0;
    ghost var read: Bytes := [];
    while i < |chunks|
      invariant 0 <= i <= |chunks| && read == Flatten(chunks[..i]) && received == |read| <= MAX_RESPONSE_BYTES
      invariant pending == Rest(read) && eventCount == |Lines(read)|
      invariant AbsorbAll(Lines(read), reader) == Some(p)
    {
      var chunk := chunks[i];
      assert chunks[..i + 1][..i] == chunks[..i];
      FlattenSplits(chunks, i + 1);
      ghost var after := Flatten(chunks[i + 1..]);
      received := received + |chunk|;
      if received > MAX_RESPONSE_BYTES {
        return Refused;
      }
      SplitAppend(read, chunk);
      read := read + chunk;
      assert total == read + after;
      pending := pending + chunk;
      if |pending| > MAX_EVENT_BYTES && FirstNewline(pending) == |pending| {
        LongRestIsRefused(read, after, reader);
        return Refused;
      }
      var q := ScanPending(pending, p, eventCount, Lines(read), reader);
      if q.None? {
        RefusedLinesStayRefused(read, after, reader);
        return Refused;
      }
      p, pending, eventCount := q.value.0, q.value.1, q.value.2;
      i := i + 1;
    }
    assert chunks[..i] == chunks;
    if |pending| > 0 {
      return Refused;
    }
    return Finish(p);
  }

  /** The inner loop: take every complete line off what is pending. */
  method ScanPending(start: Bytes, before: Progress, count: nat, ghost lines: seq<Bytes>, reader: Reader)
    returns (r: Option<(Progress, Bytes, nat)>)
    requires count <= |lines| && lines[count..] == Lines(start)
    requires AbsorbAll(lines[..count], reader) == Some(before)
    ensures r.None? ==> AbsorbAll(lines, reader).None?
    ensures r.Some? ==> AbsorbAll(lines, reader) == Some(r.value.0) && r.value.1 == Rest(start) && r.value.2 == |lines|
  {
    var p, pending, eventCount := before, start, count;
    while FirstNewline(pending) < |pending|
      invariant count <= eventCount <= |lines|
      invariant lines[eventCount..] == Lines(pending) && Rest(pending) == Rest(start)
      invariant AbsorbAll(lines[..eventCount], reader) == Some(p)
      decreases |pending|
    {
      var k := FirstNewline(pending);
      var line := pending[..k];
      assert lines[eventCount] == lines[eventCount..][0] == line;
      assert lines[eventCount + 1..] == lines[eventCount..][1..] == Lines(pending[k + 1..]);
      assert lines[..eventCount + 1][..eventCount] == lines[..eventCount];
      pending := pending[k + 1..];
      eventCount := eventCount + 1;
      var q := Absorb(p, line, eventCount, reader);
      if q.None? {
        PrefixRefuses(lines, eventCount, reader);
        return None;
      }
      p := q.value;
    }
    assert lines[..eventCount] == lines;
    return Some((p, pending, eventCount));
  }

  lemma {:induction false} FlattenSplits(chunks: seq<Bytes>, n: nat)
    requires n <= |chunks|
    ensures Flatten(chunks) == Flatten(chunks[..n]) + Flatten(chunks[n..])
    decreases |chunks|
  {
    if n == |chunks| {
      assert chunks[..n] == chunks;
    } else {
      var init, last := chunks[..|chunks| - 1], chunks[|chunks| - 1];
      FlattenSplits(init, n);
      assert init[..n] == chunks[..n];
      assert chunks[n..][..|chunks| - n - 1] == init[n..];
    }
  }
}
