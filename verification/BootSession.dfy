/** `iap_bootloader_run`: the receive loop, the session loop and its three ways to end. */
module BootSession {
  import opened Bytes
  import opened Frames
  import opened FrameBuffers
  import opened Scanner
  import opened Parser
  import opened Flash
  import opened OtaData
  import opened Device
  import opened Bootloader
  import opened UpdateHistory
  import opened UpdateSafety

  const POLLS_PER_MS: nat := 10
  const ENTRY_TIMEOUT_MS: nat := 800
  const WINDOW_MS: nat := 100
  const SESSION_TIMEOUT_MS: nat := 10000

  const WINDOW_POLLS: nat := WINDOW_MS * POLLS_PER_MS
  const ENTRY_POLLS: nat := ENTRY_TIMEOUT_MS * POLLS_PER_MS
  const SESSION_POLLS: nat := SESSION_TIMEOUT_MS * POLLS_PER_MS

  /** How a run of the bootloader service ends. */
  datatype Ending = NoSession | Booted | Restarted | TimedOut

  /** The polls of a run, the frames it processed, and after how many polls each of them was complete. */
  datatype Log = Log(polled: seq<Option<byte>>, events: seq<Event>, times: seq<nat>)

  /** The bytes that a run of UART polls found. */
  function Arrived(polls: seq<Option<byte>>): seq<byte> {
    if polls == [] then []
    else Arrived(polls[..|polls| - 1]) + (match polls[|polls| - 1] case None => [] case Some(b) => [b])
  }

  ghost function FramesOf(events: seq<Event>): (frames: seq<Frame>)
    ensures |frames| == |events|
  {
    seq(|events|, i requires 0 <= i < |events| => events[i].frame)
  }

  /** The replies of a session, in order. */
  ghost function Replies(env: Env, d: Device, events: seq<Event>): (replies: seq<seq<byte>>)
    requires Sound(env, d)
    ensures |replies| == |events|
    decreases |events|
  {
    if events == [] then []
    else
      var last := events[|events| - 1];
      var before := Run(env, d, NOTHING, events[..|events| - 1]).0;
      Replies(env, d, events[..|events| - 1]) + [Process(env, before, last.frame, last.faults).sent]
  }

  /** The action of the last frame of a session. */
  ghost function LastAction(env: Env, d: Device, events: seq<Event>): Action
    requires Sound(env, d) && events != []
  {
    var last := events[|events| - 1];
    Process(env, Run(env, d, NOTHING, events[..|events| - 1]).0, last.frame, last.faults).action
  }

  /** Every frame of the session left it open. */
  ghost predicate Ongoing(env: Env, d: Device, events: seq<Event>)
    requires Sound(env, d)
    decreases |events|
  {
    events == [] || (Ongoing(env, d, events[..|events| - 1]) && LastAction(env, d, events) == Continue)
  }

  /** No frame of the session ended in a reset. */
  ghost predicate NoReset(env: Env, d: Device, events: seq<Event>)
    requires Sound(env, d)
    decreases |events|
  {
    events == [] || (NoReset(env, d, events[..|events| - 1]) && LastAction(env, d, events) != Reset)
  }

  lemma {:induction false} OngoingHasNoReset(env: Env, d: Device, events: seq<Event>)
    requires Sound(env, d) && Ongoing(env, d, events)
    ensures NoReset(env, d, events)
    decreases |events|
  {
    hide LastAction, Sound;
    if events != [] {
      OngoingHasNoReset(env, d, events[..|events| - 1]);
    }
  }

  /** The last frame of a session is the given command, and it was executed with success. */
  ghost predicate Executes(env: Env, d: Device, events: seq<Event>, command: byte)
    requires Sound(env, d)
  {
    && events != [] && events[|events| - 1].frame.command == command
    && var last := events[|events| - 1];
      Process(env, Run(env, d, NOTHING, events[..|events| - 1]).0, last.frame, last.faults).executed == Some(OK)
  }

  /** The way out of a session is an executed BOOT or an executed END, and nothing else is. */
  lemma LastActionExactly(env: Env, d: Device, events: seq<Event>)
    requires Sound(env, d) && events != []
    ensures LastAction(env, d, events) == Boot <==> Executes(env, d, events, BOOT)
    ensures LastAction(env, d, events) == Reset <==> Executes(env, d, events, END)
  {
    hide Process, Sound;
    var last := events[|events| - 1];
    ActionExactly(env, Run(env, d, NOTHING, events[..|events| - 1]).0, last.frame, last.faults);
  }

  lemma {:induction false} OngoingExecutesNoExit(env: Env, d: Device, events: seq<Event>, n: nat)
    requires Sound(env, d) && Ongoing(env, d, events) && n <= |events|
    ensures !Executes(env, d, events[..n], BOOT) && !Executes(env, d, events[..n], END)
    decreases |events|
  {
    hide Sound, Executes, LastAction;
    if n == 0 {
      NothingExecuted(env, d);
    } else if n < |events| {
      assert events[..|events| - 1][..n] == events[..n];
      OngoingExecutesNoExit(env, d, events[..|events| - 1], n);
    } else {
      assert events[..n] == events;
      LastActionExactly(env, d, events);
    }
  }

  lemma NothingExecuted(env: Env, d: Device)
    requires Sound(env, d)
    ensures !Executes(env, d, [], BOOT) && !Executes(env, d, [], END)
  {
  }

  /** Torn otadata entries of the session do not read as valid. */
  ghost predicate BenignRun(env: Env, d: Device, events: seq<Event>)
    requires Sound(env, d)
    decreases |events|
  {
    events == [] ||
    var last := events[|events| - 1];
    var before := Run(env, d, NOTHING, events[..|events| - 1]).0;
    BenignRun(env, d, events[..|events| - 1]) && BenignStep(env, before, last.faults)
  }

  lemma {:induction false} BenignWithoutReset(env: Env, d: Device, events: seq<Event>)
    requires Sound(env, d) && NoReset(env, d, events) && BenignRun(env, d, events)
    ensures Live(env, d, events)
    decreases |events|
  {
    hide Process, BenignStep, Sound, Run;
    if events != [] {
      BenignWithoutReset(env, d, events[..|events| - 1]);
    }
  }

  // ----- What the polls carried, and when -----

  /** Frame `i` of the log was complete exactly when poll `times[i]` had been made, in time for its window. */
  ghost predicate OnTime(log: Log, i: nat)
    requires |log.times| == |log.events| && i < |log.times|
  {
    var t, since := log.times[i], if i == 0 then 0 else log.times[i - 1];
    && since < t <= |log.polled| && t - since <= (if i == 0 then ENTRY_POLLS else SESSION_POLLS)
    && ScanStream(Arrived(log.polled[..t])).frames == FramesOf(log.events[..i + 1])
    && ScanStream(Arrived(log.polled[..t - 1])).frames == FramesOf(log.events[..i])
  }

  /** The polls carried exactly the frames of the log, each at its time, and what they left pending is buffered. */
  ghost predicate Faithful(log: Log, buffered: seq<byte>) {
    && ScanStream(Arrived(log.polled)) == Scan(FramesOf(log.events), buffered)
    && |log.times| == |log.events|
    && forall i :: 0 <= i < |log.times| ==> OnTime(log, i)
  }

  function LastTime(log: Log): nat {
    if log.times == [] then 0 else log.times[|log.times| - 1]
  }

  lemma OnTimeStays(log: Log, more: seq<Option<byte>>, event: seq<Event>, time: seq<nat>, i: nat)
    requires |log.times| == |log.events| && |event| == |time| && i < |log.times| && OnTime(log, i)
    ensures OnTime(Log(log.polled + more, log.events + event, log.times + time), i)
  {
    hide ScanStream, Arrived;
    var next, t := Log(log.polled + more, log.events + event, log.times + time), log.times[i];
    assert next.polled[..t] == log.polled[..t] && next.polled[..t - 1] == log.polled[..t - 1];
    assert next.events[..i + 1] == log.events[..i + 1] && next.events[..i] == log.events[..i];
  }

  lemma LogQuiet(log: Log, buffered: seq<byte>, more: seq<Option<byte>>, after: seq<byte>)
    requires Faithful(log, buffered) && ScanStream(buffered + Arrived(more)) == Scan([], after)
    ensures Faithful(log.(polled := log.polled + more), after)
  {
    hide ScanStream, Arrived, OnTime;
    HeardMore(log.polled, more, FramesOf(log.events), buffered);
    var next := log.(polled := log.polled + more);
    assert FramesOf(log.events) + [] == FramesOf(log.events);
    forall i | 0 <= i < |log.times| ensures OnTime(next, i) {
      OnTimeStays(log, more, [], [], i);
      assert log.events + [] == log.events && log.times + [] == log.times;
    }
  }

  /** A window that ends with a frame. */
  lemma LogFrame(log: Log, buffered: seq<byte>, more: seq<Option<byte>>, after: seq<byte>, event: Event)
    requires Faithful(log, buffered) && more != [] && ScanStream(buffered + Arrived(more)) == Scan([event.frame], after)
    requires ScanStream(buffered + Arrived(more[..|more| - 1])).frames == []
    requires |log.polled| + |more| - LastTime(log) <= (if log.times == [] then ENTRY_POLLS else SESSION_POLLS)
    ensures Faithful(
      Log(log.polled + more, log.events + [event], log.times + [|log.polled| + |more|]), after)
  {
    hide ScanStream, Arrived;
    var n, t := |log.times|, |log.polled| + |more|;
    var next := Log(log.polled + more, log.events + [event], log.times + [t]);
    HeardMore(log.polled, more, FramesOf(log.events), buffered);
    HeardMore(log.polled, more[..|more| - 1], FramesOf(log.events), buffered);
    FramesNext(log.events, event);
    assert next.polled[..t] == next.polled && next.polled[..t - 1] == log.polled + more[..|more| - 1];
    assert next.events[..n + 1] == next.events && next.events[..n] == log.events;
    forall i | 0 <= i < n + 1 ensures OnTime(next, i) {
      if i < n {
        OnTimeStays(log, more, [event], [t], i);
      } else {
        LastIsBehind(log);
      }
    }
  }

  lemma LastIsBehind(log: Log)
    requires |log.times| == |log.events| && forall i :: 0 <= i < |log.times| ==> OnTime(log, i)
    ensures LastTime(log) <= |log.polled|
  {
    hide ScanStream, Arrived;
    if log.times != [] {
      assert OnTime(log, |log.times| - 1);
    }
  }

  /** A silent window leaves the events alone and lets the time go by. */
  lemma QuietWindow(past: Log, buffered: seq<byte>, more: seq<Option<byte>>, after: seq<byte>,
                    arriving: seq<Option<byte>>, rest: seq<Option<byte>>, quiet: nat) returns (log: Log)
    requires Faithful(past, buffered) && past.times != [] && ScanStream(buffered + Arrived(more)) == Scan([], after)
    requires arriving == more + rest && |more| <= WINDOW_POLLS && (rest == [] || |more| == WINDOW_POLLS)
    requires |past.polled| - LastTime(past) <= quiet && (arriving == [] || |past.polled| - LastTime(past) == quiet)
    ensures Faithful(log, after) && log.times != [] && log.events == past.events && LastTime(log) == LastTime(past)
    ensures past.polled + arriving == log.polled + rest && |rest| <= |arriving|
    ensures |log.polled| - LastTime(log) <= quiet + WINDOW_POLLS
    ensures rest == [] || |log.polled| - LastTime(log) == quiet + WINDOW_POLLS
  {
    hide Faithful, ScanStream, Arrived;
    LogQuiet(past, buffered, more, after);
    log := past.(polled := past.polled + more);
  }

  /** A window that ends with a frame adds it to the log, in time. */
  lemma BusyWindow(past: Log, buffered: seq<byte>, more: seq<Option<byte>>, after: seq<byte>,
                   arriving: seq<Option<byte>>, rest: seq<Option<byte>>, quiet: nat, event: Event) returns (log: Log)
    requires Faithful(past, buffered) && past.times != [] && quiet + WINDOW_POLLS <= SESSION_POLLS
    requires more != [] && ScanStream(buffered + Arrived(more)) == Scan([event.frame], after)
    requires ScanStream(buffered + Arrived(more[..|more| - 1])).frames == []
    requires arriving == more + rest && |more| <= WINDOW_POLLS && |past.polled| - LastTime(past) <= quiet
    ensures Faithful(log, after) && log.times != [] && log.events == past.events + [event]
    ensures past.polled + arriving == log.polled + rest && |rest| < |arriving| && LastTime(log) == |log.polled|
  {
    hide Faithful, ScanStream, Arrived;
    LogFrame(past, buffered, more, after, event);
    log := Log(past.polled + more, past.events + [event], past.times + [|past.polled| + |more|]);
  }

  /** Why the run is over: no opening HELLO, an accepted BOOT, an END that restarts the device, or a hundred silent
      windows in a row since the last frame. A line that has fallen silent for good never fills its polls. */
  ghost predicate EndsAs(env: Env, d: Device, log: Log, rx: seq<Option<byte>>, ending: Ending)
    requires Sound(env, d)
  {
    match ending
    case NoSession => log.events == []
    case Booted => EndedBy(env, d, log.events, Boot)
    case Restarted => EndedBy(env, d, log.events, Reset)
    case TimedOut =>
      && log.events != [] && Ongoing(env, d, log.events)
      && (rx == [] || |log.polled| - LastTime(log) == SESSION_POLLS)
  }

  /** The last frame of the session, and only that one, took the given way out. */
  ghost predicate EndedBy(env: Env, d: Device, events: seq<Event>, action: Action)
    requires Sound(env, d)
  {
    events != [] && Ongoing(env, d, events[..|events| - 1]) && LastAction(env, d, events) == action
  }

  class Session {
    const boot: Bootloader
    const parser: Parser
    const receivedFrame: FrameBuffer
    /** What each coming poll of the UART will find; after the last one the line stays silent. */
    var rx: seq<Option<byte>>

    constructor (env: Env, flash: FlashChip, rx: seq<Option<byte>>)
      requires env.layout.WellFormed() && |flash.cells| == env.layout.flashSize
      ensures Valid() && this.rx == rx && boot.env == env && boot.flash == flash
      ensures fresh(boot) && fresh(parser) && fresh(parser.buffer) && fresh(receivedFrame)
      ensures fresh(receivedFrame.payload)
      ensures fresh(boot.responseFrame) && fresh(boot.responseFrame.payload)
      ensures fresh(boot.encodedResponse) && fresh(boot.lastResponse)
      ensures fresh(boot.writeBuffer) && fresh(boot.expectedDigest)
      ensures parser.length == 0 && boot.sent == []
      ensures boot.State() == Device(flash.cells, None, 0, None, false, 0, 0, seq(DIGEST_SIZE, _ => 0))
    {
      boot := new Bootloader(env, flash);
      parser := new Parser();
      receivedFrame := new FrameBuffer();
      this.rx := rx;
    }

    ghost predicate Valid()
      reads this, boot, boot.flash, boot.responseFrame, boot.lastResponse, boot.expectedDigest
      reads parser, parser.buffer, receivedFrame
    {
      && boot.Valid() && parser.Valid() && boot.Foreign(receivedFrame)
      && parser.buffer != receivedFrame.payload
      && parser.buffer !in {boot.responseFrame.payload, boot.encodedResponse, boot.lastResponse, boot.writeBuffer,
        boot.expectedDigest}
    }

    ghost function Buffered(): seq<byte>
      requires parser.length <= parser.buffer.Length
      reads this, parser, parser.buffer
    {
      parser.buffer[..parser.length]
    }

    /** `receive_frame`: poll for a byte and push it, until a frame is complete or the polls are used up. */
    method ReceiveFrame(timeoutMs: nat) returns (received: bool, ghost polled: seq<Option<byte>>)
      requires Valid()
      modifies this`rx, parser`length, parser.buffer, receivedFrame, receivedFrame.payload
      ensures Valid() && old(rx) == polled + rx && |polled| <= timeoutMs * POLLS_PER_MS
      ensures ScanStream(old(Buffered()) + Arrived(polled))
        == Scan(if received then [receivedFrame.Value()] else [], Buffered())
      ensures received ==> polled != [] && ScanStream(old(Buffered()) + Arrived(polled[..|polled| - 1])).frames == []
      ensures !received ==> rx == [] || |polled| == timeoutMs * POLLS_PER_MS
      ensures boot.State() == old(boot.State()) && boot.sent == old(boot.sent)
    {
      hide ScanStream, Sound, Pending, Arrived;
      var pollLimit := timeoutMs * POLLS_PER_MS;
      ghost var start := Buffered();
      polled := [];
      PendingIsFixed(start);
      NothingArrived();
      assert start + Arrived(polled) == start;
      for poll := 0 to pollLimit
        invariant Valid() && old(rx) == polled + rx && |polled| <= poll && (rx == [] || |polled| == poll)
        invariant boot.State() == old(boot.State())
        invariant ScanStream(start + Arrived(polled)) == Scan([], Buffered())
      {
        ghost var before := polled;
        received, polled := PollOnce(start, polled);
        if received {
          assert polled[..|polled| - 1] == before;
          return;
        }
      }
      return false, polled;
    }

    method PollOnce(ghost start: seq<byte>, ghost before: seq<Option<byte>>)
      returns (received: bool, ghost polled: seq<Option<byte>>)
      requires Valid() && ScanStream(start + Arrived(before)) == Scan([], Buffered())
      modifies this`rx, parser`length, parser.buffer, receivedFrame, receivedFrame.payload
      ensures Valid() && polled == before + (if old(rx) == [] then [] else [old(rx)[0]])
      ensures rx == (if old(rx) == [] then [] else old(rx)[1..]) && (received ==> old(rx) != [])
      ensures boot.State() == old(boot.State())
      ensures ScanStream(start + Arrived(polled)) == Scan(if received then [receivedFrame.Value()] else [], Buffered())
    {
      hide ScanStream, Arrived, Sound;
      polled := before;
      if rx == [] {
        return false, polled;
      }
      var next := rx[0];
      rx := rx[1..];
      polled := polled + [next];
      ArrivedNext(start, before, next);
      if next.None? {
        assert start + Arrived(before) + [] == start + Arrived(before);
        return false, polled;
      }
      ScanAppend(start + Arrived(before), [next.value]);
      var result := parser.Push(next.value, receivedFrame);
      return result == FrameReady, polled;
    }

    /** One frame of the session, with the history it extends. */
    method ProcessNext(x: Faults, ghost start: Device, ghost before: seq<Event>) returns (action: Action)
      requires Valid() && Sound(boot.env, start) && Conducted(start, before)
      modifies boot, boot.flash, boot.responseFrame, boot.responseFrame.payload
      modifies boot.encodedResponse, boot.lastResponse, boot.writeBuffer, boot.expectedDigest
      ensures Valid() && Buffered() == old(Buffered())
      ensures Conducted(start, before + [Event(old(receivedFrame.Value()), x)])
      ensures action == LastAction(boot.env, start, before + [Event(old(receivedFrame.Value()), x)])
    {
      hide Sound, Process;
      ConductedNext(boot.env, start, before, Event(receivedFrame.Value(), x));
      action := boot.ProcessFrame(receivedFrame, x);
    }

    /** The context and the sent bytes are those of a session from `start`. */
    ghost predicate Conducted(start: Device, events: seq<Event>)
      requires boot.Valid() && Sound(boot.env, start)
      reads this, boot, boot.flash, boot.responseFrame, boot.lastResponse, boot.expectedDigest
    {
      boot.State() == Run(boot.env, start, NOTHING, events).0 && boot.sent == Replies(boot.env, start, events)
    }

    /** Up to and including the first frame: without a HELLO there is no session. */
    method Enter(x: Faults, ghost start: Device) returns (entered: bool, ghost log: Log)
      requires Valid() && parser.length == 0 && boot.sent == [] && boot.State() == start
      modifies this`rx, parser`length, parser.buffer, receivedFrame, receivedFrame.payload
      modifies boot, boot.flash, boot.responseFrame, boot.responseFrame.payload
      modifies boot.encodedResponse, boot.lastResponse, boot.writeBuffer, boot.expectedDigest
      ensures Valid() && Sound(boot.env, start) && old(rx) == log.polled + rx
      ensures Conducted(start, log.events) && Ongoing(boot.env, start, log.events)
      ensures entered == Opens(old(rx))
      ensures !entered ==> log.events == []
      ensures entered ==>
        && Faithful(log, Buffered()) && |log.events| == 1 && LastTime(log) == |log.polled|
        && OpensSession(log.events[0].frame) && log.events[0].faults == x
    {
      hide Sound, ScanStream, Process, Pending, Bootloader.Shape, Opens, Faithful, LastAction, Arrived;
      ghost var polled, arriving := [], rx;
      entered, polled := ReceiveFrame(ENTRY_TIMEOUT_MS);
      assert [] + Arrived(polled) == Arrived(polled);
      log := Log(polled, [], []);
      if !entered {
        NothingOpens(arriving, polled, rx, Buffered());
        return;
      }
      assert [] + Arrived(polled[..|polled| - 1]) == Arrived(polled[..|polled| - 1]);
      ghost var f, buffered := receivedFrame.Value(), Buffered();
      FirstDecides(arriving, polled, rx, f, buffered);
      var first := IsHello(receivedFrame);
      if !first {
        return false, log;
      }
      FirstContinues(boot.env, start, Event(f, x));
      LogStarts(polled, Event(f, x), buffered);
      var action := ProcessNext(x, start, []);
      assert [] + [Event(f, x)] == [Event(f, x)];
      log := Log(polled, [Event(f, x)], [|polled|]);
    }

    /** The check of the first frame. */
    method IsHello(frame: FrameBuffer) returns (opens: bool)
      requires frame.Valid()
      ensures opens == OpensSession(frame.Value())
    {
      opens := !(frame.version != PROTOCOL_VERSION || frame.command != HELLO || frame.sequence != 0);
    }

    /** One receive window of the session loop, and the frame that arrived in it, if any. */
    method Window(x: Faults, ghost start: Device, ghost past: Log, ghost quiet: nat)
      returns (received: bool, action: Action, ghost log: Log)
      requires Valid() && Sound(boot.env, start) && Conducted(start, past.events)
      requires Faithful(past, Buffered()) && past.times != [] && quiet + WINDOW_POLLS <= SESSION_POLLS
      requires |past.polled| - LastTime(past) <= quiet && (rx == [] || |past.polled| - LastTime(past) == quiet)
      modifies this`rx, parser`length, parser.buffer, receivedFrame, receivedFrame.payload
      modifies boot, boot.flash, boot.responseFrame, boot.responseFrame.payload
      modifies boot.encodedResponse, boot.lastResponse, boot.writeBuffer, boot.expectedDigest
      ensures Valid() && past.polled + old(rx) == log.polled + rx
      ensures |rx| <= |old(rx)| && (received ==> |rx| < |old(rx)|)
      ensures Conducted(start, log.events) && Faithful(log, Buffered()) && log.times != []
      ensures !received ==>
        && log.events == past.events && LastTime(log) == LastTime(past)
        && |log.polled| - LastTime(log) <= quiet + WINDOW_POLLS
        && (rx == [] || |log.polled| - LastTime(log) == quiet + WINDOW_POLLS)
      ensures received ==>
        && |log.events| == |past.events| + 1 && log.events[..|past.events|] == past.events
        && log.events[|past.events|].faults == x
        && LastTime(log) == |log.polled| && action == LastAction(boot.env, start, log.events)
    {
      hide Sound, ScanStream, Process, Pending, Bootloader.Shape, LastAction, Arrived, Faithful, LastTime, Run, Replies;
      ghost var more, buffered, arriving := [], Buffered(), rx;
      received, more := ReceiveFrame(WINDOW_MS);
      action := Continue;
      if !received {
        log := QuietWindow(past, buffered, more, Buffered(), arriving, rx, quiet);
        return;
      }
      ghost var event := Event(receivedFrame.Value(), x);
      log := BusyWindow(past, buffered, more, Buffered(), arriving, rx, quiet, event);
      action := ProcessNext(x, start, past.events);
    }

    /** Frames until BOOT, a committed END, or a hundred silent windows in a row. */
    method Converse(faults: nat -> Faults, ghost start: Device, ghost first: Log)
      returns (ending: Ending, ghost log: Log)
      requires Valid() && Sound(boot.env, start) && Conducted(start, first.events)
      requires Faithful(first, Buffered()) && |first.events| == 1 && LastTime(first) == |first.polled|
      requires Ongoing(boot.env, start, first.events) && first.events[0].faults == faults(0)
      modifies this`rx, parser`length, parser.buffer, receivedFrame, receivedFrame.payload
      modifies boot, boot.flash, boot.responseFrame, boot.responseFrame.payload
      modifies boot.encodedResponse, boot.lastResponse, boot.writeBuffer, boot.expectedDigest
      ensures Valid() && first.polled + old(rx) == log.polled + rx
      ensures Conducted(start, log.events) && Faithful(log, Buffered()) && first.events <= log.events
      ensures forall i :: 0 <= i < |log.events| ==> log.events[i].faults == faults(i)
      ensures ending != NoSession && EndsAs(boot.env, start, log, rx, ending)
    {
      hide Sound, ScanStream, Process, Pending, Bootloader.Shape, Conducted, Faithful, LastAction;
      log := first;
      TimesAreEvents(first, Buffered());
      var idleMs: nat, processed: nat := 0, 1;
      while idleMs < SESSION_TIMEOUT_MS
        invariant Valid() && first.polled + old(rx) == log.polled + rx
        invariant Conducted(start, log.events) && Faithful(log, Buffered()) && first.events <= log.events
        invariant Ongoing(boot.env, start, log.events) && log.times != []
        invariant processed == |log.events| && forall i :: 0 <= i < |log.events| ==> log.events[i].faults == faults(i)
        invariant idleMs % WINDOW_MS == 0 && idleMs <= SESSION_TIMEOUT_MS
        invariant |log.polled| - LastTime(log) <= idleMs * POLLS_PER_MS
        invariant rx == [] || |log.polled| - LastTime(log) == idleMs * POLLS_PER_MS
        decreases |rx|, SESSION_TIMEOUT_MS - idleMs
      {
        var received, action;
        received, action, log := Window(faults(processed), start, log, idleMs * POLLS_PER_MS);
        if !received {
          idleMs := idleMs + WINDOW_MS;
          continue;
        }
        idleMs, processed := 0, processed + 1;
        assert log.events[..|log.events| - 1] == log.events[..processed - 1];
        if action == Boot {
          return Booted, log;
        }
        if action == Reset {
          return Restarted, log;
        }
      }
      return TimedOut, log;
    }

    /** The target is chosen before the first byte is awaited. */
    method Prepare(bootIndex: Option<nat>) returns (ghost start: Device)
      requires Valid()
      requires boot.State() == Device(boot.flash.cells, None, 0, None, false, 0, 0, seq(DIGEST_SIZE, _ => 0))
      requires bootIndex == Selected(boot.env.layout, boot.flash.cells)
      modifies boot`targetIndex, boot`targetPartition
      ensures Valid() && start == Fresh(boot.env, boot.flash.cells) == boot.State()
      ensures Sound(boot.env, start) && !start.active && start.cells == boot.flash.cells
    {
      start := Fresh(boot.env, boot.flash.cells);
      FreshSound(boot.env, boot.flash.cells);
      var found := boot.ChooseSlot(bootIndex);
    }

    /** `iap_bootloader_run`, for every input on the UART and every pattern of flash faults: which frames it
        processes and when, why it ends, and what then is selected. */
    method RunSession(bootIndex: Option<nat>, faults: nat -> Faults) returns (ending: Ending, ghost log: Log)
      requires Valid() && parser.length == 0 && boot.sent == []
      requires boot.State() == Device(boot.flash.cells, None, 0, None, false, 0, 0, seq(DIGEST_SIZE, _ => 0))
      requires bootIndex == Selected(boot.env.layout, boot.flash.cells)
      modifies this`rx, parser`length, parser.buffer, receivedFrame, receivedFrame.payload
      modifies boot, boot.flash, boot.responseFrame, boot.responseFrame.payload
      modifies boot.encodedResponse, boot.lastResponse, boot.writeBuffer, boot.expectedDigest
      ensures Valid() && old(rx) == log.polled + rx && (ending == NoSession <==> !Opens(old(rx)))
      ensures ending != NoSession ==> Faithful(log, Buffered())
      ensures forall i :: 0 <= i < |log.events| ==> log.events[i].faults == faults(i)
      ensures RunOutcome(boot.env, Fresh(boot.env, old(boot.flash.cells)), log, rx, ending, boot.flash.cells, boot.sent)
      ensures var left := Run(boot.env, Fresh(boot.env, old(boot.flash.cells)), NOTHING, log.events).0;
        boot.State() == if ending == TimedOut then left.Abandon() else left
    {
      hide Sound, ScanStream, Process, Pending, Bootloader.Shape, Selected, Fresh, Opens, Faithful, Ongoing,
        OpensSession, EndedBy, RunOutcome;
      ghost var start := Prepare(bootIndex);
      var entered;
      entered, log := Enter(faults(0), start);
      ending := NoSession;
      if entered {
        ending, log := Converse(faults, start, log);
      }
      RunOutcomeHolds(boot.env, start, log, rx, ending, boot.flash.cells, boot.sent);
      if ending == TimedOut {
        boot.EndSession();
      }
    }
  }

  /** The first frame of the entry window opens a session. */
  ghost predicate Opens(rx: seq<Option<byte>>) {
    var window := ScanStream(Arrived(rx[..Min(ENTRY_POLLS, |rx|)])).frames;
    window != [] && OpensSession(window[0])
  }

  lemma NothingOpens(arriving: seq<Option<byte>>, polled: seq<Option<byte>>, rest: seq<Option<byte>>,
                     buffered: seq<byte>)
    requires arriving == polled + rest && |polled| <= ENTRY_POLLS && (rest == [] || |polled| == ENTRY_POLLS)
    requires ScanStream(Arrived(polled)) == Scan([], buffered)
    ensures !Opens(arriving)
  {
    hide ScanStream, Arrived;
    assert arriving[..Min(ENTRY_POLLS, |arriving|)] == polled;
  }

  lemma FirstDecides(arriving: seq<Option<byte>>, polled: seq<Option<byte>>, rest: seq<Option<byte>>, f: Frame,
                     buffered: seq<byte>)
    requires arriving == polled + rest && |polled| <= ENTRY_POLLS && ScanStream(Arrived(polled)) == Scan([f], buffered)
    ensures Opens(arriving) <==> OpensSession(f)
  {
    hide ScanStream, Arrived, OpensSession;
    var window := arriving[..Min(ENTRY_POLLS, |arriving|)];
    assert window == polled + window[|polled|..];
    HeardMore(polled, window[|polled|..], [f], buffered);
  }

  lemma NothingArrived()
    ensures Arrived([]) == [] && ScanStream([]) == Scan([], []) && FramesOf([]) == []
  {
  }

  lemma FirstContinues(env: Env, d: Device, event: Event)
    requires Sound(env, d) && event.frame.command == HELLO
    ensures Ongoing(env, d, [event])
  {
    hide Sound, Process;
    HelloContinues(env, d, event.frame, event.faults);
    assert [event][..0] == [];
  }

  lemma LogStarts(polled: seq<Option<byte>>, event: Event, buffered: seq<byte>)
    requires polled != [] && |polled| <= ENTRY_POLLS && ScanStream(Arrived(polled)) == Scan([event.frame], buffered)
    requires ScanStream(Arrived(polled[..|polled| - 1])).frames == []
    ensures Faithful(Log(polled, [event], [|polled|]), buffered)
  {
    hide ScanStream, Arrived, OnTime;
    var empty := Log([], [], []);
    NothingArrived();
    assert [] + Arrived(polled) == Arrived(polled);
    assert [] + Arrived(polled[..|polled| - 1]) == Arrived(polled[..|polled| - 1]);
    LogFrame(empty, [], polled, buffered, event);
    assert [] + polled == polled && [] + [event] == [event] && [] + [0 + |polled|] == [|polled|];
  }

  lemma TimesAreEvents(log: Log, buffered: seq<byte>)
    requires Faithful(log, buffered)
    ensures |log.times| == |log.events|
  {
  }

  /** The end of a run that started at `start`: its reason, the flash and the replies of its frames, and what is
      selected now. A restart follows an END that passed the whole verify chain; every other end keeps the selection. */
  ghost predicate RunOutcome(env: Env, start: Device, log: Log, rx: seq<Option<byte>>, ending: Ending, cells: seq<byte>,
                          sent: seq<seq<byte>>)
  {
    && Sound(env, start) && EndsAs(env, start, log, rx, ending)
    && (log.events != [] ==> OpensSession(log.events[0].frame))
    && cells == Run(env, start, NOTHING, log.events).0.cells && sent == Replies(env, start, log.events)
    && (ending == Booted <==> Executes(env, start, log.events, BOOT))
    && (ending == Restarted <==> Executes(env, start, log.events, END))
    && (forall n :: 0 <= n < |log.events| ==> NoExit(env, start, log.events[..n]))
    && (ending == Restarted ==> RestartJustified(env, start, log.events))
    && (ending != Restarted && BenignRun(env, start, log.events) ==>
      |cells| == |start.cells| && Selected(env.layout, cells) == Selected(env.layout, start.cells))
  }

  ghost predicate NoExit(env: Env, d: Device, events: seq<Event>)
    requires Sound(env, d)
  {
    !Executes(env, d, events, BOOT) && !Executes(env, d, events, END)
  }

  /** The ending tells which request took the session out, and no earlier one did. */
  lemma EndingExactly(env: Env, d: Device, log: Log, rx: seq<Option<byte>>, ending: Ending)
    requires Sound(env, d) && EndsAs(env, d, log, rx, ending)
    ensures ending == Booted <==> Executes(env, d, log.events, BOOT)
    ensures ending == Restarted <==> Executes(env, d, log.events, END)
    ensures forall n :: 0 <= n < |log.events| ==> NoExit(env, d, log.events[..n])
  {
    hide Sound, Executes, LastAction, Ongoing;
    var events := log.events;
    if events == [] {
      NothingExecuted(env, d);
    } else {
      LastActionExactly(env, d, events);
      forall n | 0 <= n < |events| ensures NoExit(env, d, events[..n]) {
        if ending == TimedOut {
          OngoingExecutesNoExit(env, d, events, n);
        } else {
          assert events[..|events| - 1][..n] == events[..n];
          OngoingExecutesNoExit(env, d, events[..|events| - 1], n);
        }
      }
      if ending == TimedOut {
        assert events[..|events|] == events;
        OngoingExecutesNoExit(env, d, events, |events|);
      }
    }
  }

  lemma RunOutcomeHolds(env: Env, d: Device, log: Log, rx: seq<Option<byte>>, ending: Ending, cells: seq<byte>,
                     sent: seq<seq<byte>>)
    requires Sound(env, d) && !d.active && EndsAs(env, d, log, rx, ending)
    requires log.events != [] ==> OpensSession(log.events[0].frame)
    requires cells == Run(env, d, NOTHING, log.events).0.cells && sent == Replies(env, d, log.events)
    ensures RunOutcome(env, d, log, rx, ending, cells, sent)
  {
    hide Process, RestartJustified, BenignRun, Selected, LastAction, Ongoing, OpensSession, Layout.WellFormed, Executes;
    EndingExactly(env, d, log, rx, ending);
    if ending == Restarted {
      ResetIsJustified(env, d, log.events);
    } else {
      EndedWithoutReset(env, d, log, rx, ending);
      ReturnKeepsSelection(env, d, log.events);
    }
  }

  lemma EndedWithoutReset(env: Env, d: Device, log: Log, rx: seq<Option<byte>>, ending: Ending)
    requires Sound(env, d) && EndsAs(env, d, log, rx, ending) && ending != Restarted
    ensures NoReset(env, d, log.events)
  {
    hide Sound, LastAction;
    if ending == Booted {
      OngoingHasNoReset(env, d, log.events[..|log.events| - 1]);
    } else if ending == TimedOut {
      OngoingHasNoReset(env, d, log.events);
    }
  }

  lemma ConductedNext(env: Env, start: Device, before: seq<Event>, event: Event)
    requires Sound(env, start)
    ensures var d := Run(env, start, NOTHING, before).0; var o := Process(env, d, event.frame, event.faults);
      && Run(env, start, NOTHING, before + [event]).0 == o.device
      && Replies(env, start, before + [event]) == Replies(env, start, before) + [o.sent]
      && LastAction(env, start, before + [event]) == o.action
  {
    hide Process, Sound, Note;
    assert (before + [event])[..|before|] == before;
  }

  /** The verify chain, judged against the history of the session before its last frame. */
  ghost predicate RestartJustified(env: Env, d: Device, events: seq<Event>)
    requires Sound(env, d) && events != []
  {
    var last := events[|events| - 1];
    var (before, history) := Run(env, d, NOTHING, events[..|events| - 1]);
    last.frame.command == END && last.frame.payload == [] && Justified(env, before, history)
  }

  lemma ResetIsJustified(env: Env, d: Device, events: seq<Event>)
    requires Sound(env, d) && !d.active && EndedBy(env, d, events, Reset)
    ensures RestartJustified(env, d, events)
  {
    hide Process, Sound, Justified, OtaChanged, Ongoing;
    CommitSafety(env, d, events[..|events| - 1], events[|events| - 1]);
  }

  lemma ReturnKeepsSelection(env: Env, d: Device, events: seq<Event>)
    requires Sound(env, d) && NoReset(env, d, events)
    ensures BenignRun(env, d, events) ==>
      Selected(env.layout, Run(env, d, NOTHING, events).0.cells) == Selected(env.layout, d.cells)
  {
    hide Process, Sound, NoReset, BenignRun, Selected;
    if BenignRun(env, d, events) {
      BenignWithoutReset(env, d, events);
      SessionKeepsSelection(env, d, events);
    }
  }

  lemma {:induction false} ArrivedAppend(a: seq<Option<byte>>, b: seq<Option<byte>>)
    ensures Arrived(a + b) == Arrived(a) + Arrived(b)
    decreases |b|
  {
    if b == [] {
      assert a + b == a;
    } else {
      assert (a + b)[..|a + b| - 1] == a + b[..|b| - 1];
      ArrivedAppend(a, b[..|b| - 1]);
    }
  }

  lemma HeardMore(before: seq<Option<byte>>, more: seq<Option<byte>>, frames: seq<Frame>, buffered: seq<byte>)
    requires ScanStream(Arrived(before)) == Scan(frames, buffered)
    ensures ScanStream(Arrived(before + more)) == Prepend(frames, ScanStream(buffered + Arrived(more)))
  {
    hide ScanStream, Arrived;
    ArrivedAppend(before, more);
    ScanAppend(Arrived(before), Arrived(more));
  }

  lemma FramesNext(past: seq<Event>, event: Event)
    ensures FramesOf(past + [event]) == FramesOf(past) + [event.frame]
    ensures FramesOf(past) + [] == FramesOf(past)
  {
  }

  lemma HelloContinues(env: Env, d: Device, f: Frame, x: Faults)
    requires Sound(env, d) && f.command == HELLO
    ensures Process(env, d, f, x).action == Continue
  {
    hide Sound, BeginUpdate, WriteUpdate, FinishUpdate, SendResponse;
  }

  lemma ArrivedNext(start: seq<byte>, polls: seq<Option<byte>>, next: Option<byte>)
    ensures start + Arrived(polls + [next])
      == start + Arrived(polls) + (match next case None => [] case Some(b) => [b])
  {
    assert (polls + [next])[..|polls|] == polls;
  }

  /** Without an open update nothing of one is left. */
  predicate Cleared(d: Device) {
    d.active || (d.imageSize == 0 && d.nextOffset == 0 && d.digest == seq(32, _ => 0))
  }

  /** Over every session without a reset, whatever ended the update before: rejected, abandoned or never opened. */
  lemma {:induction false} InactiveIsCleared(env: Env, d: Device, events: seq<Event>)
    requires Sound(env, d) && Cleared(d) && NoReset(env, d, events)
    ensures Cleared(Run(env, d, NOTHING, events).0)
    decreases |events|
  {
    hide Process, Sound, Note, EraseBlocks, Commit, ReadLe32;
    if events != [] {
      var last := events[|events| - 1];
      InactiveIsCleared(env, d, events[..|events| - 1]);
      var before := Run(env, d, NOTHING, events[..|events| - 1]).0;
      ProcessEffect(env, before, last.frame, last.faults);
      StepClears(env, before, last.frame, last.faults, Process(env, before, last.frame, last.faults));
    }
  }

  lemma StepClears(env: Env, d: Device, f: Frame, x: Faults, o: Outcome)
    requires Sound(env, d) && Cleared(d) && Effect(env, d, f, x, o) && o.action != Reset
    ensures Cleared(o.device)
  {
    hide EraseBlocks, Commit, ReadLe32, Program, Damage;
  }
}
