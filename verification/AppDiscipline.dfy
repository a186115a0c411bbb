/** What the application service keeps over every run: its OTA handle, its boot partition and its reply cache. */
module AppDiscipline {
  import opened Bytes
  import opened Crc
  import opened Frames
  import opened Device
  import opened Flash
  import opened ReplyCache
  import opened UpdateHistory
  import opened HostProtocol
  import opened AppService

  datatype AppEvent = Arrives(frame: Frame, faults: AppFaults) | TimesOut

  const NO_APP_FAULTS: AppFaults := AppFaults(false, None, false, None, false, Confirmed)

  ghost function AppRun(env: AppEnv, a: App, h: History, events: seq<AppEvent>): (r: (App, History))
    requires AppSound(env, a)
    ensures AppSound(env, r.0)
    decreases |events|
  {
    if events == [] then (a, h)
    else
      var (before, seen) := AppRun(env, a, h, events[..|events| - 1]);
      match events[|events| - 1]
      case TimesOut => AppProcessSound(env, before, Frame(0, 0, 0, []), NO_APP_FAULTS); (AppTimeout(before), seen)
      case Arrives(f, x) =>
        AppProcessSound(env, before, f, x);
        var o := AppProcess(env, before, f, x);
        (o.app, Note(seen, f, o.executed))
  }

  // ----- The discipline of the OTA calls, for any sequence of calls -----

  /** The handle that is open after some calls. */
  function OpenHandle(calls: seq<OtaCall>): Option<nat> {
    if calls == [] then None
    else match calls[|calls| - 1]
      case OtaBegin(h) => Some(h)
      case OtaEnd(_, _) => None
      case OtaAbort(_) => None
      case _ => OpenHandle(calls[..|calls| - 1])
  }

  /** The last call ended a handle with an accepted image. */
  predicate JustValidated(calls: seq<OtaCall>) {
    calls != [] && calls[|calls| - 1].OtaEnd? && calls[|calls| - 1].ok
  }

  /** The call may follow the earlier calls: a new handle only when none is open, writes and closings only on the
      open one, and the boot partition only right after an accepted image. */
  predicate Follows(calls: seq<OtaCall>, call: OtaCall) {
    match call
    case OtaBegin(h) => OpenHandle(calls).None? && h == Begun(calls) + 1
    case OtaWrite(h, _) => OpenHandle(calls) == Some(h)
    case OtaEnd(h, _) => OpenHandle(calls) == Some(h)
    case OtaAbort(h) => OpenHandle(calls) == Some(h)
    case OtaSetBoot => JustValidated(calls)
  }

  predicate Disciplined(calls: seq<OtaCall>) {
    calls == [] || (Disciplined(calls[..|calls| - 1]) && Follows(calls[..|calls| - 1], calls[|calls| - 1]))
  }

  function Opened(calls: seq<OtaCall>, h: nat): nat {
    if calls == [] then 0
    else Opened(calls[..|calls| - 1], h) + (if calls[|calls| - 1] == OtaBegin(h) then 1 else 0)
  }

  function Closed(calls: seq<OtaCall>, h: nat): nat {
    if calls == [] then 0
    else
      var last := calls[|calls| - 1];
      Closed(calls[..|calls| - 1], h) + (if (last.OtaEnd? || last.OtaAbort?) && last.handle == h then 1 else 0)
  }

  /** In every disciplined sequence each handle is opened at most once, and closed exactly once unless it is still
      the open one. */
  lemma {:induction false} ClosedExactlyOnce(calls: seq<OtaCall>, h: nat)
    requires Disciplined(calls)
    ensures Opened(calls, h) == (if 0 < h <= Begun(calls) then 1 else 0)
    ensures Closed(calls, h) + (if OpenHandle(calls) == Some(h) then 1 else 0) == Opened(calls, h)
    decreases |calls|
  {
    if calls != [] {
      ClosedExactlyOnce(calls[..|calls| - 1], h);
    }
  }

  lemma CallNext(calls: seq<OtaCall>, call: OtaCall)
    ensures Disciplined(calls + [call]) <==> Disciplined(calls) && Follows(calls, call)
    ensures OpenHandle(calls + [call]) == match call
      case OtaBegin(h) => Some(h)
      case OtaEnd(_, _) => None
      case OtaAbort(_) => None
      case _ => OpenHandle(calls)
    ensures JustValidated(calls + [call]) <==> call.OtaEnd? && call.ok
    ensures Begun(calls + [call]) == Begun(calls) + (if call.OtaBegin? then 1 else 0)
  {
    assert (calls + [call])[..|calls|] == calls;
  }

  // ----- The service keeps it -----

  /** A handle is open exactly when an image is being received, and it is the one the context holds. */
  ghost predicate HandleHeld(a: App) {
    Disciplined(a.calls) && OpenHandle(a.calls) == (if a.state == Receiving then Some(a.handle) else None)
  }

  lemma AbortHolds(a: App)
    requires HandleHeld(a)
    ensures HandleHeld(AppAbort(a)) && AppAbort(a).state == Idle
  {
    if a.state == Receiving {
      CallNext(a.calls, OtaAbort(a.handle));
    }
  }

  lemma BeginHolds(env: AppEnv, a: App, f: Frame, x: AppFaults)
    requires HandleHeld(a)
    ensures HandleHeld(AppBegin(env, a, f, x).app)
  {
    hide Disciplined, OpenHandle;
    AbortHolds(a);
    var a1 := if a.state == Receiving then AppAbort(a) else a;
    CallNext(a1.calls, OtaBegin(Begun(a1.calls) + 1));
  }

  lemma WriteHolds(env: AppEnv, a: App, f: Frame, x: AppFaults)
    requires HandleHeld(a) && AppSound(env, a)
    ensures HandleHeld(AppWrite(env, a, f, x).app)
  {
    hide Disciplined, OpenHandle;
    if |f.payload| > OFFSET_SIZE {
      CallNext(a.calls, OtaWrite(a.handle, f.payload[OFFSET_SIZE..]));
    }
  }

  lemma FinishHolds(env: AppEnv, a: App, f: Frame, x: AppFaults)
    requires HandleHeld(a) && AppSound(env, a)
    ensures HandleHeld(AppFinish(env, a, f, x).app)
  {
    hide Disciplined, OpenHandle, JustValidated;
    var ended := a.calls + [OtaEnd(a.handle, !x.end)];
    CallNext(a.calls, OtaEnd(a.handle, !x.end));
    CallNext(ended, OtaSetBoot);
  }

  lemma ExecuteHolds(env: AppEnv, a: App, f: Frame, x: AppFaults)
    requires HandleHeld(a) && AppSound(env, a)
    ensures HandleHeld(AppExecute(env, a, f, x).0.app)
  {
    hide HandleHeld, AppBegin, AppWrite, AppFinish, AppAbort;
    AbortHolds(a);
    BeginHolds(env, a, f, x);
    WriteHolds(env, a, f, x);
    FinishHolds(env, a, f, x);
  }

  lemma SameCalls(a: App, b: App)
    requires HandleHeld(a) && b.calls == a.calls && b.state == a.state && b.handle == a.handle
    ensures HandleHeld(b)
  {
  }

  lemma AdmittedHolds(env: AppEnv, a: App, f: Frame)
    requires HandleHeld(a) && AppSound(env, a)
    ensures HandleHeld(Admitted(a, f)) && AppSound(env, Admitted(a, f))
    ensures HandleHeld(AppTimeout(a))
  {
    hide HandleHeld;
    AbortHolds(a);
    SameCalls(AppAbort(a), AppAbort(a).(expected := 0, session := true, reply := None));
    SameCalls(AppAbort(a), AppAbort(a).(expected := 0, session := false, reply := None));
  }

  /** One frame, whatever it is and whatever fails. */
  lemma ProcessHolds(env: AppEnv, a: App, f: Frame, x: AppFaults)
    requires HandleHeld(a) && AppSound(env, a)
    ensures HandleHeld(AppProcess(env, a, f, x).app)
  {
    hide HandleHeld, AppExecute, AppSound;
    var a0 := Admitted(a, f);
    AdmittedHolds(env, a, f);
    ExecuteHolds(env, a0, f, x);
    ConcludeKeepsCalls(env, a, f, x);
  }

  lemma ConcludeKeepsCalls(env: AppEnv, a: App, f: Frame, x: AppFaults)
    requires AppSound(env, a) && HandleHeld(a) && AppSound(env, Admitted(a, f))
    requires HandleHeld(AppExecute(env, Admitted(a, f), f, x).0.app)
    ensures HandleHeld(AppProcess(env, a, f, x).app)
  {
    hide AppExecute, AppReply, Disciplined, OpenHandle;
  }

  /** Without a session there is no update, without an update there is no handle, and an idle service announces
      offset zero. */
  predicate Tidy(a: App) {
    && (!a.session ==> a.state == Idle) && (a.state != Receiving ==> a.handle == 0)
    && (a.state == Idle ==> a.nextOffset == 0) && (a.state == Finished ==> a.nextOffset == a.imageSize)
  }

  lemma ExecuteTidy(env: AppEnv, a: App, f: Frame, x: AppFaults)
    requires AppSound(env, a) && Tidy(a) && a.session
    ensures Tidy(AppExecute(env, a, f, x).0.app)
  {
  }

  lemma ProcessTidy(env: AppEnv, a: App, f: Frame, x: AppFaults)
    requires AppSound(env, a) && Tidy(a)
    ensures Tidy(AppProcess(env, a, f, x).app) && Tidy(AppTimeout(a)) && !AppTimeout(a).session
  {
    hide AppExecute, AppReply, Crc32, Encode;
    var a0 := Admitted(a, f);
    AppExecuteSound(env, a0, f, x);
    if AppProcess(env, a, f, x).executed.Some? {
      ExecuteTidy(env, a0, f, x);
    }
  }

  /** One timeout of an open session: the open handle is aborted, and nothing is open or announced afterwards. */
  lemma TimeoutCloses(a: App)
    requires HandleHeld(a) && a.session
    ensures var b := AppTimeout(a);
      && HandleHeld(b) && OpenHandle(b.calls).None? && b.state == Idle && !b.session
      && b.handle == 0 && b.imageSize == 0 && b.nextOffset == 0
      && b.calls == a.calls + (if OpenHandle(a.calls).Some? then [OtaAbort(OpenHandle(a.calls).value)] else [])
  {
    hide Disciplined, OpenHandle;
    if a.state == Receiving {
      CallNext(a.calls, OtaAbort(a.handle));
    }
  }

  /** Over every run of frames, timeouts and failing calls: a handle is open exactly while receiving, every other
      handle has been closed exactly once, and the offset never passes the image size. From a tidy start, no handle
      and no update is ever open without a session. */
  lemma {:induction false} HandleDiscipline(env: AppEnv, a: App, events: seq<AppEvent>)
    requires AppSound(env, a) && HandleHeld(a)
    ensures var (b, _) := AppRun(env, a, NOTHING, events);
      && HandleHeld(b) && b.nextOffset <= b.imageSize
      && (forall h: nat :: ClosedOnce(b, h))
      && (Tidy(a) ==> Tidy(b) && (OpenHandle(b.calls).Some? ==> b.session))
    decreases |events|
  {
    hide AppProcess, AppTimeout, HandleHeld, Tidy;
    var (b, _) := AppRun(env, a, NOTHING, events);
    if events != [] {
      HandleDiscipline(env, a, events[..|events| - 1]);
      var (before, _) := AppRun(env, a, NOTHING, events[..|events| - 1]);
      match events[|events| - 1]
      case TimesOut =>
        AdmittedHolds(env, before, Frame(0, 0, 0, []));
        if Tidy(a) {
          ProcessTidy(env, before, Frame(0, 0, 0, []), NO_APP_FAULTS);
        }
      case Arrives(f, x) =>
        ProcessHolds(env, before, f, x);
        if Tidy(a) {
          ProcessTidy(env, before, f, x);
        }
    }
    HeldLedger(b);
    if Tidy(b) {
      OpenNeedsSession(b);
    }
  }

  lemma OpenNeedsSession(b: App)
    requires HandleHeld(b) && Tidy(b)
    ensures OpenHandle(b.calls).Some? ==> b.session
  {
  }

  /** A handle was opened if its number was given out, and closed if it was opened and is not the open one. */
  predicate ClosedOnce(b: App, h: nat) {
    && Opened(b.calls, h) == (if 0 < h <= Begun(b.calls) then 1 else 0)
    && Closed(b.calls, h) + (if b.state == Receiving && b.handle == h then 1 else 0) == Opened(b.calls, h)
  }

  lemma HeldLedger(b: App)
    requires HandleHeld(b)
    ensures forall h: nat :: ClosedOnce(b, h)
  {
    forall h: nat ensures ClosedOnce(b, h) {
      ClosedExactlyOnce(b.calls, h);
    }
  }

  // ----- The boot partition -----

  /** The service remembers the most recent accepted BEGIN, and counts the DATA accepted since. */
  predicate AppRemembers(a: App, h: History) {
    a.state == Receiving ==>
      h.begun && h.size == a.imageSize && h.digest == a.digest && |h.received| == a.nextOffset
  }

  /** The received bytes are stored exactly, and the rest of the image range is still erased. */
  ghost predicate AppHolds(a: App, h: History)
    requires |h.received| <= |a.cells|
  {
    && (forall i :: 0 <= i < |h.received| ==> a.cells[i] == h.received[i])
    && (forall i :: |h.received| <= i < a.imageSize && i < |a.cells| ==> a.cells[i] == ERASED)
  }

  ghost predicate AppStored(env: AppEnv, a: App, h: History)
    requires AppSound(env, a)
  {
    AppRemembers(a, h) && (a.state == Receiving ==> AppHolds(a, h))
  }

  /** A DATA request whose OTA write failed left the flash as it was. */
  predicate CleanAppFailure(a: App, f: Frame, o: AppOutcome) {
    f.command == DATA && o.executed == Some(ERR_FLASH) ==> o.app.cells == a.cells
  }

  ghost predicate CleanAppFailures(env: AppEnv, a: App, events: seq<AppEvent>)
    requires AppSound(env, a)
    decreases |events|
  {
    events == [] ||
    var last := events[|events| - 1];
    var before := AppRun(env, a, NOTHING, events[..|events| - 1]).0;
    && CleanAppFailures(env, a, events[..|events| - 1])
    && (last.Arrives? ==> CleanAppFailure(before, last.frame, AppProcess(env, before, last.frame, last.faults)))
  }

  lemma ExecuteRemembers(env: AppEnv, a: App, h: History, f: Frame, x: AppFaults, r: AppHandled)
    requires AppSound(env, a) && AppRemembers(a, h) && r == AppExecute(env, a, f, x).0
    ensures AppRemembers(r.app, Note(h, f, Some(r.status)))
  {
    hide Program, Damage, Erase, ReadLe32, Begun;
  }

  lemma ProcessRemembers(env: AppEnv, a: App, h: History, f: Frame, x: AppFaults)
    requires AppSound(env, a) && AppRemembers(a, h)
    ensures var o := AppProcess(env, a, f, x); AppRemembers(o.app, Note(h, f, o.executed))
    ensures AppRemembers(AppTimeout(a), h)
  {
    hide AppExecute, AppReply, Crc32;
    var a0 := Admitted(a, f);
    AppExecuteSound(env, a0, f, x);
    ExecuteRemembers(env, a0, h, f, x, AppExecute(env, a0, f, x).0);
  }

  /** Over every run, whatever fails. */
  lemma {:induction false} RemembersOverRuns(env: AppEnv, a: App, events: seq<AppEvent>)
    requires AppSound(env, a) && a.state != Receiving
    ensures var (b, h) := AppRun(env, a, NOTHING, events); AppRemembers(b, h)
    decreases |events|
  {
    hide AppProcess, AppTimeout, Note, AppRemembers;
    if events == [] {
      NothingStored(env, a);
    } else {
      RemembersOverRuns(env, a, events[..|events| - 1]);
      var (before, seen) := AppRun(env, a, NOTHING, events[..|events| - 1]);
      match events[|events| - 1]
      case TimesOut => ProcessRemembers(env, before, seen, Frame(0, 0, 0, []), NO_APP_FAULTS);
      case Arrives(f, x) => ProcessRemembers(env, before, seen, f, x);
    }
  }

  /** Programming erased cells stores the data behind what is there. */
  lemma WriteStores(a: App, h: History, data: seq<byte>)
    requires |h.received| + |data| <= a.imageSize <= |a.cells| && AppHolds(a, h)
    ensures AppHolds(a.(cells := Program(a.cells, |h.received|, data)), h.(received := h.received + data))
  {
    hide And;
    var n, after := |h.received|, Program(a.cells, |h.received|, data);
    forall i | 0 <= i < n + |data| ensures after[i] == (h.received + data)[i] {
      if i >= n {
        AndErased(data[i - n]);
      }
    }
  }

  lemma ExecuteStores(env: AppEnv, a: App, h: History, f: Frame, x: AppFaults, r: AppHandled)
    requires AppSound(env, a) && AppStored(env, a, h) && r == AppExecute(env, a, f, x).0 && AppSound(env, r.app)
    requires f.command == DATA && r.status == ERR_FLASH ==> r.app.cells == a.cells
    ensures AppStored(env, r.app, Note(h, f, Some(r.status)))
  {
    hide Program, Damage;
    ExecuteRemembers(env, a, h, f, x, r);
    if f.command == DATA && r.status == OK {
      WriteStores(a, h, f.payload[OFFSET_SIZE..]);
    }
  }

  lemma ProcessStores(env: AppEnv, a: App, h: History, f: Frame, x: AppFaults)
    requires AppSound(env, a) && AppStored(env, a, h) && CleanAppFailure(a, f, AppProcess(env, a, f, x))
    ensures var o := AppProcess(env, a, f, x); AppSound(env, o.app) && AppStored(env, o.app, Note(h, f, o.executed))
  {
    hide AppExecute, AppReply, Crc32, AppHolds, AppRemembers;
    AppProcessSound(env, a, f, x);
    var a0 := Admitted(a, f);
    AppExecuteSound(env, a0, f, x);
    AdmittedStored(env, a, h, f);
    if AppProcess(env, a, f, x).executed.Some? {
      var r := AppExecute(env, a0, f, x).0;
      ExecuteStores(env, a0, h, f, x, r);
      SameStored(env, r.app, AppProcess(env, a, f, x).app, Note(h, f, Some(r.status)));
    }
  }

  lemma AdmittedStored(env: AppEnv, a: App, h: History, f: Frame)
    requires AppSound(env, a) && AppStored(env, a, h)
    ensures AppSound(env, Admitted(a, f)) && AppStored(env, Admitted(a, f), h)
    ensures AppSound(env, AppTimeout(a)) && AppStored(env, AppTimeout(a), h)
  {
  }

  lemma SameStored(env: AppEnv, a: App, b: App, h: History)
    requires AppSound(env, a) && AppStored(env, a, h) && AppSound(env, b) && b.state == a.state && b.cells == a.cells
    requires b.imageSize == a.imageSize && b.nextOffset == a.nextOffset && b.digest == a.digest
    ensures AppStored(env, b, h)
  {
  }

  /** Over every run in which a failed OTA write leaves the flash as it was: while receiving, the target starts with
      exactly the DATA accepted since the last BEGIN, and the rest of the image range is blank. */
  lemma {:induction false} StoredOverRuns(env: AppEnv, a: App, events: seq<AppEvent>)
    requires AppSound(env, a) && a.state != Receiving && CleanAppFailures(env, a, events)
    ensures var (b, h) := AppRun(env, a, NOTHING, events); AppStored(env, b, h)
    decreases |events|
  {
    hide AppProcess, AppTimeout, Note, AppStored, CleanAppFailure;
    if events == [] {
      NothingStored(env, a);
    } else {
      StoredOverRuns(env, a, events[..|events| - 1]);
      var (before, seen) := AppRun(env, a, NOTHING, events[..|events| - 1]);
      match events[|events| - 1]
      case TimesOut => AdmittedStored(env, before, seen, Frame(0, 0, 0, []));
      case Arrives(f, x) => ProcessStores(env, before, seen, f, x);
    }
  }

  lemma NothingStored(env: AppEnv, a: App)
    requires AppSound(env, a) && a.state != Receiving
    ensures AppStored(env, a, NOTHING) && AppRemembers(a, NOTHING)
  {
  }

  /** A failed write over which the same data are written again need not store them: the bits it cleared stay
      clear. Without an assumption about failed writes only the hash speaks for the contents. */
  lemma RetriedWriteCanDiffer(env: AppEnv) returns (a: App, f: Frame, x: AppFaults)
    requires env.target == Some(1)
    ensures AppSound(env, a) && a.state == Receiving && a.cells == [ERASED]
    ensures f.command == DATA && f.payload == Le32(0) + [7]
    ensures var failed := AppWrite(env, a, f, x);
      && failed.status == ERR_FLASH && AppSound(env, failed.app)
      && AppWrite(env, failed.app, f, NO_APP_FAULTS).status == OK
      && AppWrite(env, failed.app, f, NO_APP_FAULTS).app.cells == [0]
  {
    a := App([], [ERASED], Receiving, 1, 1, 0, seq(DIGEST_SIZE, _ => 0), 3, true, Key(0, 0, 0), None);
    f := Frame(PROTOCOL_VERSION, DATA, 3, Le32(0) + [7]);
    x := NO_APP_FAULTS.(write := Some([0]));
    Le32Inverse(f.payload, 0, 0);
    assert f.payload[0..4] == Le32(0);
    assert f.payload[OFFSET_SIZE..] == [7];
    AndZero(7);
  }

  lemma AndZero(b: byte)
    ensures And(0, b) == 0
  {
  }

  /** Everything that has to hold before the boot partition may be set. */
  ghost predicate Verified(env: AppEnv, a: App, h: History, x: AppFaults)
    requires AppSound(env, a)
  {
    && a.state == Receiving && h.begun && a.nextOffset == h.size == |h.received| <= |a.cells|
    && env.sha256(a.cells[..h.size]) == h.digest
    && !x.end && OpenHandle(a.calls) == Some(a.handle)
  }

  predicate SetsBoot(before: seq<OtaCall>, after: seq<OtaCall>) {
    after != [] && after[|after| - 1] == OtaSetBoot && after != before
  }

  /** Over every run: a frame that sets the boot partition is an END that accounts for as many bytes as announced,
      with the announced hash in the target, on a handle that is open and is ended with success right before; if
      failed writes left the flash as it was, the target holds the bytes received. Nothing else sets it. */
  lemma BootOnlyWhenVerified(env: AppEnv, a: App, events: seq<AppEvent>, f: Frame, x: AppFaults)
    requires AppSound(env, a) && HandleHeld(a) && a.state != Receiving
    ensures var (b, h) := AppRun(env, a, NOTHING, events);
      var calls := AppProcess(env, b, f, x).app.calls;
      SetsBoot(b.calls, calls) ==>
        && f.command == END && Verified(env, b, h, x)
        && calls == b.calls + [OtaEnd(b.handle, true)] + [OtaSetBoot]
        && (CleanAppFailures(env, a, events) ==> b.cells[..h.size] == h.received)
  {
    hide AppRun, CleanAppFailures;
    HandleDiscipline(env, a, events);
    RemembersOverRuns(env, a, events);
    var (b, h) := AppRun(env, a, NOTHING, events);
    SetBootIsVerified(env, b, h, f, x);
    if CleanAppFailures(env, a, events) {
      StoredOverRuns(env, a, events);
    }
  }

  lemma SetBootIsVerified(env: AppEnv, b: App, h: History, f: Frame, x: AppFaults)
    requires AppSound(env, b) && HandleHeld(b) && AppRemembers(b, h)
    ensures var calls := AppProcess(env, b, f, x).app.calls;
      SetsBoot(b.calls, calls) ==>
        && f.command == END && Verified(env, b, h, x)
        && calls == b.calls + [OtaEnd(b.handle, true)] + [OtaSetBoot]
  {
    hide AppReply, Crc32, Disciplined, OpenHandle;
    if SetsBoot(b.calls, AppProcess(env, b, f, x).app.calls) {
      HelloSetsNothing(env, b, f, x);
      ExecuteSetsBoot(env, b, f, x, AppExecute(env, b, f, x).0);
    }
  }

  lemma HelloSetsNothing(env: AppEnv, b: App, f: Frame, x: AppFaults)
    requires AppSound(env, b) && SetsBoot(b.calls, AppProcess(env, b, f, x).app.calls)
    ensures f.command != HELLO && AppProcess(env, b, f, x).app.calls == AppExecute(env, b, f, x).0.app.calls
  {
    hide AppReply, Crc32, AppBegin, AppWrite, AppFinish, Encode, AppMatchesLast;
  }

  lemma ExecuteSetsBoot(env: AppEnv, a: App, f: Frame, x: AppFaults, r: AppHandled)
    requires AppSound(env, a) && r == AppExecute(env, a, f, x).0
    requires SetsBoot(a.calls, r.app.calls)
    ensures f.command == END && a.state == Receiving && a.nextOffset == a.imageSize && !x.end
    ensures env.sha256(a.cells[..a.imageSize]) == a.digest
    ensures r.app.calls == a.calls + [OtaEnd(a.handle, true)] + [OtaSetBoot]
  {
  }

  // ----- The reply cache -----

  /** The cached bytes answer the request the key names. */
  predicate AppCoherent(a: App) {
    a.reply.Some? ==>
      a.expected == Next16(a.key.sequence) && IsOkReply(a.reply.value, a.key.command, a.key.sequence, a.expected)
  }

  /** An accepted request whose reply could not be sent while an older reply is cached. */
  predicate LosesReply(a: App, f: Frame, x: AppFaults, o: AppOutcome) {
    o.executed == Some(OK) && x.send != Confirmed && a.reply.Some? && !(f.command == HELLO && f.sequence == 0)
  }

  lemma SequenceMoves(x: u16)
    ensures Next16(x) != x
  {
  }

  lemma ReplyNamesItsSequence(bytes: seq<byte>, command: byte, sequence: u16, expected: u16,
                              other: u16, later: byte, next: u16)
    requires IsOkReply(bytes, command, sequence, expected) && other != sequence
    ensures !IsOkReply(bytes, later, other, next)
  {
  }

  /** The service keeps its cache coherent exactly when it does not lose a reply: the key of the cache moves with
      every accepted request, but the cached bytes only with the replies that were sent. */
  lemma CacheCoherentUnlessReplyLost(env: AppEnv, a: App, f: Frame, x: AppFaults)
    requires AppSound(env, a) && AppCoherent(a)
    ensures AppCoherent(AppProcess(env, a, f, x).app) <==> !LosesReply(a, f, x, AppProcess(env, a, f, x))
    ensures AppCoherent(AppTimeout(a))
  {
    hide IsOkReply, AppExecute, Crc32, Encode;
    var o := AppProcess(env, a, f, x);
    if o.executed.Some? {
      var a0 := Admitted(a, f);
      AppExecuteSound(env, a0, f, x);
      ConcludedCoherent(env, a0, f, x, AppExecute(env, a0, f, x).0, AppExecute(env, a0, f, x).1);
    }
  }

  lemma ConcludedCoherent(env: AppEnv, a: App, f: Frame, x: AppFaults, h: AppHandled, restart: bool)
    requires AppCoherent(a) && f.sequence == a.expected && h.app.nextOffset <= U32_MAX
    requires h.app.expected == a.expected && h.app.key == a.key && h.app.reply == a.reply
    ensures AppCoherent(AppConclude(env, f, h, restart, x).app)
      <==> !(h.status == OK && x.send != Confirmed && a.reply.Some?)
  {
    hide IsOkReply, Crc32, Encode;
    var o := AppConclude(env, f, h, restart, x);
    if h.status == OK && x.send != Confirmed && a.reply.Some? {
      SequenceMoves(a.key.sequence);
      ReplyNamesItsSequence(a.reply.value, a.key.command, a.key.sequence, a.expected, f.sequence, f.command,
        o.app.expected);
    } else if h.status == OK {
      ReplyDecodes(f.command, f.sequence, OK, o.app.expected, o.app.nextOffset, AppDetail(env, h.notice));
    }
  }

  /** After a lost reply, re-sending the request only brings back the older reply, which no host accepts for it. */
  lemma LostReplyIsNeverRepeated(env: AppEnv, a: App, f: Frame, x: AppFaults, o: AppOutcome, again: AppFaults,
                                 offset: nat)
    requires AppSound(env, a) && AppCoherent(a) && o == AppProcess(env, a, f, x) && LosesReply(a, f, x, o)
    requires AppSound(env, o.app)
    ensures AppProcess(env, o.app, f, again) == AppOutcome(o.app, a.reply.value, again.Delivers(), false, None)
    ensures Decode(a.reply.value).Ok? && JudgeFrame(f, offset, Decode(a.reply.value).value) == Ignored
  {
    hide AppExecute, Crc32, Encode, Decode, DecodeResponse, ResponseAccepted;
    AppExecuteSound(env, a, f, x);
    SequenceMoves(a.key.sequence);
    OkReplySequence(a.reply.value, a.key.command, a.key.sequence, a.expected);
  }

  lemma OkReplySequence(bytes: seq<byte>, command: byte, sequence: u16, expected: u16)
    requires IsOkReply(bytes, command, sequence, expected)
    ensures Decode(bytes).Ok? && Decode(bytes).value.sequence == sequence
  {
    hide Decode;
  }

  /** While every reply can be sent, the cache is coherent over every run. */
  lemma {:induction false} CacheCoherentOverRuns(env: AppEnv, a: App, events: seq<AppEvent>)
    requires AppSound(env, a) && AppCoherent(a)
    requires forall i :: 0 <= i < |events| && events[i].Arrives? ==> events[i].faults.send == Confirmed
    ensures AppCoherent(AppRun(env, a, NOTHING, events).0)
    decreases |events|
  {
    hide AppProcess, AppTimeout, AppCoherent, Note;
    if events != [] {
      var n := |events| - 1;
      CacheCoherentOverRuns(env, a, events[..n]);
      var (before, _) := AppRun(env, a, NOTHING, events[..n]);
      match events[n]
      case TimesOut => CacheCoherentUnlessReplyLost(env, before, Frame(0, 0, 0, []), NO_APP_FAULTS);
      case Arrives(f, x) => CacheCoherentUnlessReplyLost(env, before, f, x);
    }
  }

  /** Whatever became of its replies, a cached first HELLO is answered by the reply to it, in an open session. */
  predicate GreetingCached(a: App) {
    a.reply.Some? ==>
      a.session && (a.key.command == HELLO && a.key.sequence == 0 ==>
        a.expected == 1 && a.state != Receiving && IsOkReply(a.reply.value, HELLO, 0, 1))
  }

  lemma GreetingStaysCached(env: AppEnv, a: App, f: Frame, x: AppFaults)
    requires AppSound(env, a) && GreetingCached(a)
    ensures GreetingCached(AppProcess(env, a, f, x).app) && GreetingCached(AppTimeout(a))
  {
    hide IsOkReply, AppBegin, AppWrite, AppFinish, Crc32, Encode, AppReply;
    if AppProcess(env, a, f, x).executed.Some? {
      var a0 := Admitted(a, f);
      AppExecuteSound(env, a0, f, x);
      RefusedOpensNothing(env, a0, f, x);
      ReplyIsOk(env, f, AppExecute(env, a0, f, x).0);
    }
  }

  /** Only an accepted BEGIN opens an update. */
  lemma RefusedOpensNothing(env: AppEnv, a: App, f: Frame, x: AppFaults)
    requires AppSound(env, a)
    ensures var h := AppExecute(env, a, f, x).0;
      h.app.state == Receiving && a.state != Receiving ==> f.command == BEGIN && h.status == OK
    ensures f.command == HELLO ==> AppExecute(env, a, f, x) == (AppHandled(a, OK, Greeting), false)
  {
  }

  lemma ReplyIsOk(env: AppEnv, f: Frame, h: AppHandled)
    requires h.app.nextOffset <= U32_MAX
    ensures forall a: App :: a.nextOffset == h.app.nextOffset ==>
      IsOkReply(Encode(AppReply(env, a, f, OK, h.notice)), f.command, f.sequence, a.expected)
  {
    hide IsOkReply, Encode;
    forall a: App | a.nextOffset == h.app.nextOffset
      ensures IsOkReply(Encode(AppReply(env, a, f, OK, h.notice)), f.command, f.sequence, a.expected) {
      ReplyDecodes(f.command, f.sequence, OK, a.expected, a.nextOffset, AppDetail(env, h.notice));
    }
  }

  /** Over every run, lost replies included. */
  lemma {:induction false} GreetingCachedOverRuns(env: AppEnv, a: App, events: seq<AppEvent>)
    requires AppSound(env, a) && a.reply.None?
    ensures GreetingCached(AppRun(env, a, NOTHING, events).0)
    decreases |events|
  {
    hide AppProcess, AppTimeout, GreetingCached, Note;
    if events == [] {
      NothingCached(a);
    } else {
      var n := |events| - 1;
      GreetingCachedOverRuns(env, a, events[..n]);
      var (before, _) := AppRun(env, a, NOTHING, events[..n]);
      match events[n]
      case TimesOut => GreetingStaysCached(env, before, Frame(0, 0, 0, []), NO_APP_FAULTS);
      case Arrives(f, x) => GreetingStaysCached(env, before, f, x);
    }
  }

  lemma NothingCached(a: App)
    requires a.reply.None?
    ensures GreetingCached(a)
  {
  }
}
