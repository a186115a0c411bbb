/** `iap_service_task`: the receive loop of the application service and its session timeout. */
module ServiceTask {
  import opened Bytes
  import opened Frames
  import opened FrameBuffers
  import opened Scanner
  import opened Parser
  import opened UpdateHistory
  import opened AppService
  import opened AppDiscipline
  import opened IapService

  const SESSION_TIMEOUT_MS: nat := 10000

  /** One `uart_read_bytes`, and the clock when it returned. */
  datatype Reading = Reading(input: seq<byte>, nowMs: nat)

  function InputOf(readings: seq<Reading>): seq<byte> {
    if readings == [] then [] else InputOf(readings[..|readings| - 1]) + readings[|readings| - 1].input
  }

  function FramesIn(events: seq<AppEvent>): seq<Frame> {
    if events == [] then []
    else
      var last := events[|events| - 1];
      FramesIn(events[..|events| - 1]) + (if last.Arrives? then [last.frame] else [])
  }

  // ----- What `iap_service_task` does, as a function of the readings -----

  /** The events so far, the clock at the last valid frame, and whether the device is restarting. */
  datatype Progress = Progress(events: seq<AppEvent>, lastMs: nat, restarting: bool)

  ghost function StateAfter(env: AppEnv, start: App, p: Progress): (a: App)
    requires AppSound(env, start)
    ensures AppSound(env, a)
  {
    AppRun(env, start, NOTHING, p.events).0
  }

  /** A frame is processed as soon as it is complete, unless the device is restarting. */
  ghost function Arrive(env: AppEnv, start: App, p: Progress, f: Frame, nowMs: nat, faults: nat -> AppFaults): Progress
    requires AppSound(env, start)
  {
    if p.restarting then p
    else
      var x := faults(|FramesIn(p.events)|);
      Progress(p.events + [Arrives(f, x)], nowMs, AppProcess(env, StateAfter(env, start, p), f, x).restart)
  }

  ghost function ArriveAll(env: AppEnv, start: App, p: Progress, frames: seq<Frame>, nowMs: nat,
                           faults: nat -> AppFaults): Progress
    requires AppSound(env, start)
    decreases |frames|
  {
    if frames == [] then p
    else
      var before := ArriveAll(env, start, p, frames[..|frames| - 1], nowMs, faults);
      Arrive(env, start, before, frames[|frames| - 1], nowMs, faults)
  }

  /** An open session ends when no valid frame has arrived for ten seconds. */
  ghost function Silence(env: AppEnv, start: App, p: Progress, nowMs: nat): Progress
    requires AppSound(env, start)
  {
    if !p.restarting && StateAfter(env, start, p).session && nowMs >= p.lastMs + SESSION_TIMEOUT_MS
    then p.(events := p.events + [TimesOut]) else p
  }

  /** The frames that a reading completes. */
  function NewFrames(input: seq<byte>, more: seq<byte>): seq<Frame> {
    ScanStream(ScanStream(input).rest + more).frames
  }

  ghost function TaskAfter(env: AppEnv, start: App, lastMs: nat, readings: seq<Reading>,
                           faults: nat -> AppFaults): Progress
    requires AppSound(env, start)
    decreases |readings|
  {
    if readings == [] then Progress([], lastMs, false)
    else
      var past, last := readings[..|readings| - 1], readings[|readings| - 1];
      var before := TaskAfter(env, start, lastMs, past, faults);
      var frames := NewFrames(InputOf(past), last.input);
      Silence(env, start, ArriveAll(env, start, before, frames, last.nowMs, faults), last.nowMs)
  }

  lemma FramesInAppend(events: seq<AppEvent>, event: AppEvent)
    ensures FramesIn(events + [event]) == FramesIn(events) + (if event.Arrives? then [event.frame] else [])
  {
    assert (events + [event])[..|events|] == events;
  }

  /** A restarting device handles nothing more. */
  lemma {:induction false} RestartingStays(env: AppEnv, start: App, p: Progress, frames: seq<Frame>, nowMs: nat,
                                           faults: nat -> AppFaults)
    requires AppSound(env, start) && p.restarting
    ensures ArriveAll(env, start, p, frames, nowMs, faults) == p
    decreases |frames|
  {
    hide AppSound, AppProcess, StateAfter;
    if frames != [] {
      RestartingStays(env, start, p, frames[..|frames| - 1], nowMs, faults);
    }
  }

  lemma {:induction false} ArriveAllAppend(env: AppEnv, start: App, p: Progress, a: seq<Frame>, b: seq<Frame>,
                                           nowMs: nat, faults: nat -> AppFaults)
    requires AppSound(env, start)
    ensures ArriveAll(env, start, p, a + b, nowMs, faults)
      == ArriveAll(env, start, ArriveAll(env, start, p, a, nowMs, faults), b, nowMs, faults)
    decreases |b|
  {
    hide AppSound, Arrive;
    if b == [] {
      assert a + b == a;
    } else {
      assert (a + b)[..|a + b| - 1] == a + b[..|b| - 1];
      ArriveAllAppend(env, start, p, a, b[..|b| - 1], nowMs, faults);
    }
  }

  lemma {:induction false} RestartedTaskStays(env: AppEnv, start: App, lastMs: nat, readings: seq<Reading>, n: nat,
                                              faults: nat -> AppFaults)
    requires AppSound(env, start) && n <= |readings| && TaskAfter(env, start, lastMs, readings[..n], faults).restarting
    ensures TaskAfter(env, start, lastMs, readings, faults) == TaskAfter(env, start, lastMs, readings[..n], faults)
    decreases |readings|
  {
    hide AppSound, ArriveAll, NewFrames;
    if n == |readings| {
      assert readings[..n] == readings;
    } else {
      var past, last := readings[..|readings| - 1], readings[|readings| - 1];
      assert past[..n] == readings[..n];
      RestartedTaskStays(env, start, lastMs, past, n, faults);
      var before := TaskAfter(env, start, lastMs, past, faults);
      RestartingStays(env, start, before, NewFrames(InputOf(past), last.input), last.nowMs, faults);
    }
  }

  /** Frames of the input, in order: all of them unless the device restarts, and then those up to the one that made
      it restart. */
  lemma {:induction false} ArriveAllFrames(env: AppEnv, start: App, p: Progress, frames: seq<Frame>, nowMs: nat,
                                           faults: nat -> AppFaults)
    requires AppSound(env, start)
    ensures var q := ArriveAll(env, start, p, frames, nowMs, faults);
      && FramesIn(q.events) <= FramesIn(p.events) + frames
      && (!q.restarting ==> FramesIn(q.events) == FramesIn(p.events) + frames && !p.restarting)
    decreases |frames|
  {
    hide AppSound, AppProcess, StateAfter;
    if frames == [] {
      assert FramesIn(p.events) + frames == FramesIn(p.events);
    } else {
      var init, last := frames[..|frames| - 1], frames[|frames| - 1];
      ArriveAllFrames(env, start, p, init, nowMs, faults);
      var q := ArriveAll(env, start, p, init, nowMs, faults);
      assert FramesIn(p.events) + frames == FramesIn(p.events) + init + [last];
      if !q.restarting {
        FramesInAppend(q.events, Arrives(last, faults(|FramesIn(q.events)|)));
      }
    }
  }

  /** The clock of the last valid frame is that of the reading that completed it; a reading without a frame leaves
      it alone, and so does a timeout. */
  lemma {:induction false} ClockFollowsFrames(env: AppEnv, start: App, lastMs: nat, readings: seq<Reading>,
                                              faults: nat -> AppFaults)
    requires AppSound(env, start) && readings != []
    ensures var past, last := readings[..|readings| - 1], readings[|readings| - 1];
      var before, after := TaskAfter(env, start, lastMs, past, faults), TaskAfter(env, start, lastMs, readings, faults);
      && (before.restarting ==> after == before)
      && (!before.restarting ==>
        after.lastMs == if NewFrames(InputOf(past), last.input) == [] then before.lastMs else last.nowMs)
  {
    hide AppSound, NewFrames, StateAfter, Arrive;
    var past, last := readings[..|readings| - 1], readings[|readings| - 1];
    var before, frames := TaskAfter(env, start, lastMs, past, faults), NewFrames(InputOf(past), last.input);
    if before.restarting {
      RestartingStays(env, start, before, frames, last.nowMs, faults);
    } else {
      ArrivalsSetClock(env, start, before, frames, last.nowMs, faults);
    }
  }

  /** A reading that completes no frame ends the session exactly when one is open and the last valid frame is ten
      seconds old or older; a reading that completes one never does. */
  lemma {:induction false} TimesOutExactly(env: AppEnv, start: App, lastMs: nat, readings: seq<Reading>,
                                           faults: nat -> AppFaults)
    requires AppSound(env, start) && readings != []
    ensures var past, last := readings[..|readings| - 1], readings[|readings| - 1];
      var before, after := TaskAfter(env, start, lastMs, past, faults), TaskAfter(env, start, lastMs, readings, faults);
      !before.restarting ==>
        if NewFrames(InputOf(past), last.input) != []
        then after.events != [] && after.events[|after.events| - 1].Arrives?
        else if StateAfter(env, start, before).session && last.nowMs - before.lastMs >= 10_000
        then after.events == before.events + [TimesOut]
        else after.events == before.events
  {
    hide AppSound, NewFrames, StateAfter, AppProcess;
    var past, last := readings[..|readings| - 1], readings[|readings| - 1];
    var before, frames := TaskAfter(env, start, lastMs, past, faults), NewFrames(InputOf(past), last.input);
    if !before.restarting && frames != [] {
      ArrivalsSetClock(env, start, before, frames, last.nowMs, faults);
    }
  }

  lemma {:induction false} ArrivalsSetClock(env: AppEnv, start: App, p: Progress, frames: seq<Frame>, nowMs: nat,
                                            faults: nat -> AppFaults)
    requires AppSound(env, start) && !p.restarting
    ensures ArriveAll(env, start, p, frames, nowMs, faults).lastMs == if frames == [] then p.lastMs else nowMs
    ensures frames != [] ==> var events := ArriveAll(env, start, p, frames, nowMs, faults).events;
      events != [] && events[|events| - 1].Arrives?
    decreases |frames|
  {
    hide AppSound, StateAfter, AppProcess;
    if frames != [] {
      ArrivalsSetClock(env, start, p, frames[..|frames| - 1], nowMs, faults);
    }
  }

  lemma SilenceFrames(env: AppEnv, start: App, p: Progress, nowMs: nat)
    requires AppSound(env, start)
    ensures var q := Silence(env, start, p, nowMs);
      FramesIn(q.events) == FramesIn(p.events) && q.restarting == p.restarting
  {
    hide AppSound, StateAfter;
    FramesInAppend(p.events, TimesOut);
    assert FramesIn(p.events) + [] == FramesIn(p.events);
  }

  /** The task processes exactly the frames of the whole input, in order, until one of them restarts the device. */
  lemma {:induction false} TaskHandlesTheInput(env: AppEnv, start: App, lastMs: nat, readings: seq<Reading>,
                                               faults: nat -> AppFaults)
    requires AppSound(env, start)
    ensures var p := TaskAfter(env, start, lastMs, readings, faults);
      && FramesIn(p.events) <= ScanStream(InputOf(readings)).frames
      && (!p.restarting ==> FramesIn(p.events) == ScanStream(InputOf(readings)).frames)
    decreases |readings|
  {
    hide AppSound, ArriveAll, Silence, ScanStream;
    if readings == [] {
      NothingScanned();
    } else {
      var past, last := readings[..|readings| - 1], readings[|readings| - 1];
      var before := TaskAfter(env, start, lastMs, past, faults);
      TaskHandlesTheInput(env, start, lastMs, past, faults);
      ScanAppend(InputOf(past), last.input);
      var frames := NewFrames(InputOf(past), last.input);
      ArriveAllFrames(env, start, before, frames, last.nowMs, faults);
      SilenceFrames(env, start, ArriveAll(env, start, before, frames, last.nowMs, faults), last.nowMs);
      if before.restarting {
        RestartingStays(env, start, before, frames, last.nowMs, faults);
      }
    }
  }

  lemma NothingScanned()
    ensures ScanStream([]) == Scan([], [])
  {
  }

  lemma EventNext(env: AppEnv, start: App, events: seq<AppEvent>, event: AppEvent)
    requires AppSound(env, start)
    ensures var before := AppRun(env, start, NOTHING, events).0;
      && AppRun(env, start, NOTHING, events + [event]).0 == (match event
        case TimesOut => AppTimeout(before)
        case Arrives(f, x) => AppProcess(env, before, f, x).app)
  {
    hide AppProcess, AppTimeout, AppSound, Note;
    assert (events + [event])[..|events|] == events;
  }

  /** A restart in the middle of a reading settles the whole run. */
  lemma RestartSettles(env: AppEnv, start: App, lastMs: nat, readings: seq<Reading>, n: nat, seen: nat,
                       faults: nat -> AppFaults, q: Progress)
    requires AppSound(env, start) && n < |readings| && seen <= |readings[n].input|
    requires var before := TaskAfter(env, start, lastMs, readings[..n], faults);
      var frames := NewFrames(InputOf(readings[..n]), readings[n].input[..seen]);
      q == ArriveAll(env, start, before, frames, readings[n].nowMs, faults)
    requires q.restarting
    ensures TaskAfter(env, start, lastMs, readings, faults) == q
  {
    hide AppSound, ArriveAll, ScanStream, InputOf;
    var input, before := readings[n].input, TaskAfter(env, start, lastMs, readings[..n], faults);
    var rest := ScanStream(InputOf(readings[..n])).rest;
    assert rest + input == rest + input[..seen] + input[seen..];
    ScanAppend(rest + input[..seen], input[seen..]);
    var more := ScanStream(ScanStream(rest + input[..seen]).rest + input[seen..]).frames;
    ArriveAllAppend(env, start, before, NewFrames(InputOf(readings[..n]), input[..seen]), more, readings[n].nowMs,
      faults);
    RestartingStays(env, start, q, more, readings[n].nowMs, faults);
    assert readings[..n + 1][..n] == readings[..n];
    RestartedTaskStays(env, start, lastMs, readings, n + 1, faults);
  }

  class Task {
    const service: Service
    const parser: Parser
    const receivedFrame: FrameBuffer
    var lastValidFrameMs: nat

    constructor (service: Service, nowMs: nat)
      requires service.Valid()
      ensures this.service == service && Valid() && Buffered() == [] && lastValidFrameMs == nowMs
      ensures fresh(parser) && fresh(parser.buffer) && fresh(receivedFrame) && fresh(receivedFrame.payload)
    {
      this.service, lastValidFrameMs := service, nowMs;
      parser := new Parser();
      receivedFrame := new FrameBuffer();
    }

    ghost predicate Valid()
      reads this, service, service.ota, service.expectedDigest, service.lastResponse, parser, parser.buffer
      reads receivedFrame
    {
      && service.Valid() && parser.Valid() && service.Foreign(receivedFrame)
      && parser.buffer !in {receivedFrame.payload, service.expectedDigest, service.lastResponse}
    }

    ghost function Buffered(): seq<byte>
      requires parser.length <= parser.buffer.Length
      reads this, parser, parser.buffer
    {
      parser.buffer[..parser.length]
    }

    /** The service and its clock are where the given progress leads. */
    ghost predicate At(start: App, p: Progress)
      requires service.Valid() && AppSound(service.env, start)
      reads this, service, service.ota, service.expectedDigest, service.lastResponse
    {
      service.State() == StateAfter(service.env, start, p) && lastValidFrameMs == p.lastMs
    }

    /** One byte: a frame that it completes is processed at once. */
    method PushByte(b: byte, nowMs: nat, x: AppFaults, ghost start: App, ghost p: Progress,
                    ghost faults: nat -> AppFaults)
      returns (restarts: bool, ghost q: Progress, handled: bool)
      requires Valid() && AppSound(service.env, start) && At(start, p) && !p.restarting
      requires x == faults(|FramesIn(p.events)|)
      modifies this`lastValidFrameMs, parser`length, parser.buffer, receivedFrame, receivedFrame.payload
      modifies service, service.ota, service.expectedDigest, service.lastResponse
      ensures Valid() && At(start, q) && restarts == q.restarting
      ensures Buffered() == ScanStream(old(Buffered()) + [b]).rest
      ensures q == ArriveAll(service.env, start, p, ScanStream(old(Buffered()) + [b]).frames, nowMs, faults)
      ensures |FramesIn(q.events)| == |FramesIn(p.events)| + (if handled then 1 else 0)
    {
      hide AppSound, AppProcess, ScanStream, Pending, AppRun;
      q, restarts, handled := p, false, false;
      var result := parser.Push(b, receivedFrame);
      if result == FrameReady {
        lastValidFrameMs := nowMs;
        ghost var f := receivedFrame.Value();
        EventNext(service.env, start, p.events, Arrives(f, x));
        FramesInAppend(p.events, Arrives(f, x));
        OneArrives(service.env, start, p, f, nowMs, faults);
        restarts := service.ProcessFrame(receivedFrame, x);
        q := Arrive(service.env, start, p, f, nowMs, faults);
        handled := true;
      }
    }

    /** The session ends after ten seconds without a valid frame. */
    method CheckTimeout(nowMs: nat, ghost start: App, ghost p: Progress) returns (ghost q: Progress)
      requires Valid() && AppSound(service.env, start) && At(start, p) && !p.restarting
      modifies service, service.ota, service.expectedDigest
      ensures Valid() && At(start, q) && Buffered() == old(Buffered())
      ensures q == Silence(service.env, start, p, nowMs)
      ensures q.events == if old(service.sessionActive) && nowMs >= lastValidFrameMs + SESSION_TIMEOUT_MS
        then p.events + [TimesOut] else p.events
    {
      hide AppProcess, AppRun, AppSound, AppTimeout;
      q := Silence(service.env, start, p, nowMs);
      if service.sessionActive && nowMs >= lastValidFrameMs + SESSION_TIMEOUT_MS {
        EventNext(service.env, start, p.events, TimesOut);
        service.EndSession();
      }
    }

    /** The bytes of one reading. */
    method PushAll(readings: seq<Reading>, n: nat, faults: nat -> AppFaults, handled: nat, ghost start: App,
                   ghost lastMs: nat, ghost p: Progress)
      returns (restarts: bool, ghost q: Progress, total: nat)
      requires Valid() && AppSound(service.env, start) && At(start, p) && !p.restarting && n < |readings|
      requires p == TaskAfter(service.env, start, lastMs, readings[..n], faults)
      requires Buffered() == ScanStream(InputOf(readings[..n])).rest && handled == |FramesIn(p.events)|
      modifies this`lastValidFrameMs, parser`length, parser.buffer, receivedFrame, receivedFrame.payload
      modifies service, service.ota, service.expectedDigest, service.lastResponse
      ensures Valid() && At(start, q) && restarts == q.restarting && total == |FramesIn(q.events)|
      ensures restarts ==> q == TaskAfter(service.env, start, lastMs, readings, faults)
      ensures !restarts ==>
        && Buffered() == ScanStream(InputOf(readings[..n + 1])).rest
        && var frames := NewFrames(InputOf(readings[..n]), readings[n].input);
          q == ArriveAll(service.env, start, p, frames, readings[n].nowMs, faults)
    {
      hide AppSound, AppProcess, ScanStream, Pending, AppRun, ArriveAll, TaskAfter, FramesIn, StateAfter, InputOf;
      var input, nowMs := readings[n].input, readings[n].nowMs;
      ghost var rest := Buffered();
      q, restarts, total := p, false, handled;
      PendingIsFixed(rest);
      assert rest + input[..0] == rest;
      NoneArrive(service.env, start, p, nowMs, faults);
      for index := 0 to |input|
        invariant Valid() && At(start, q) && !q.restarting && total == |FramesIn(q.events)|
        invariant Buffered() == ScanStream(rest + input[..index]).rest
        invariant q == ArriveAll(service.env, start, p, ScanStream(rest + input[..index]).frames, nowMs, faults)
      {
        ghost var frames := ScanStream(rest + input[..index]).frames;
        ghost var more := ScanStream(Buffered() + [input[index]]).frames;
        ScanAppend(rest + input[..index], [input[index]]);
        assert rest + input[..index + 1] == rest + input[..index] + [input[index]];
        ArriveAllAppend(service.env, start, p, frames, more, nowMs, faults);
        var one;
        restarts, q, one := PushByte(input[index], nowMs, faults(total), start, q, faults);
        total := total + (if one then 1 else 0);
        if restarts {
          RestartSettles(service.env, start, lastMs, readings, n, index + 1, faults, q);
          return;
        }
      }
      assert input[..|input|] == input;
      InputNext(readings, n);
      ScanAppend(InputOf(readings[..n]), input);
    }

    /** The task loop, until a restart or the end of the readings. */
    method Serve(readings: seq<Reading>, faults: nat -> AppFaults) returns (restarts: bool, ghost p: Progress)
      requires Valid() && Buffered() == []
      modifies this`lastValidFrameMs, parser`length, parser.buffer, receivedFrame, receivedFrame.payload
      modifies service, service.ota, service.expectedDigest, service.lastResponse
      ensures Valid() && AppSound(service.env, old(service.State()))
      ensures p == TaskAfter(service.env, old(service.State()), old(lastValidFrameMs), readings, faults)
      ensures At(old(service.State()), p) && restarts == p.restarting
      ensures !restarts ==> Buffered() == ScanStream(InputOf(readings)).rest
    {
      hide ScanStream, Pending, AppSound, AppProcess, ArriveAll, Silence, FramesIn;
      ghost var start, lastMs := service.State(), lastValidFrameMs;
      NothingScanned();
      NothingHandled();
      p, restarts := Progress([], lastMs, false), false;
      var handled := 0;
      for i := 0 to |readings|
        invariant Valid() && At(start, p) && !p.restarting && handled == |FramesIn(p.events)|
        invariant p == TaskAfter(service.env, start, lastMs, readings[..i], faults)
        invariant Buffered() == ScanStream(InputOf(readings[..i])).rest
      {
        ghost var q;
        restarts, q, handled := PushAll(readings, i, faults, handled, start, lastMs, p);
        if restarts {
          p := q;
          return;
        }
        SilenceFrames(service.env, start, q, readings[i].nowMs);
        assert readings[..i + 1][..i] == readings[..i];
        p := CheckTimeout(readings[i].nowMs, start, q);
      }
      assert readings[..|readings|] == readings;
    }
  }

  lemma NothingHandled()
    ensures FramesIn([]) == [] && InputOf([]) == []
  {
  }

  lemma NoneArrive(env: AppEnv, start: App, p: Progress, nowMs: nat, faults: nat -> AppFaults)
    requires AppSound(env, start)
    ensures ArriveAll(env, start, p, [], nowMs, faults) == p
  {
  }

  lemma OneArrives(env: AppEnv, start: App, p: Progress, f: Frame, nowMs: nat, faults: nat -> AppFaults)
    requires AppSound(env, start)
    ensures ArriveAll(env, start, p, [f], nowMs, faults) == Arrive(env, start, p, f, nowMs, faults)
  {
    hide AppSound, Arrive;
    assert [f][..0] == [];
  }

  lemma InputNext(readings: seq<Reading>, n: nat)
    requires n < |readings|
    ensures InputOf(readings[..n + 1]) == InputOf(readings[..n]) + readings[n].input
  {
    assert readings[..n + 1][..n] == readings[..n];
  }
}
