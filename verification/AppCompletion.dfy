/** Updates of the application that meet no faults complete, and what a call that raised leaves behind. */
module AppCompletion {
  import opened Bytes
  import opened Frames
  import opened Device
  import opened UpdateHistory
  import opened HostProtocol
  import opened InStep
  import opened Messages
  import opened AppService
  import opened AppDiscipline
  import opened AppInStep
  import opened AppEndToEnd

  /** What the service checks on the way: the image fits its partition, and the hash is the announced one. */
  predicate AppConforming(p: Plan, v: AppEnv) {
    v.target.Some? && |p.Image()| <= v.target.value && v.sha256(p.Image()) == p.digest
  }

  // ----- Each request is accepted -----

  lemma BeginSucceeds(p: Plan, v: AppEnv, a: App)
    requires p.Valid() && AppConforming(p, v) && AppSound(v, a)
    ensures AppBegin(v, a, Request(p, p.infos + 1), NO_APP_FAULTS).status == OK
  {
    BeginFields(|p.Image()|, p.digest, p.version);
  }

  lemma DataSucceeds(p: Plan, v: AppEnv, a: App, j: nat)
    requires p.Valid() && j < |p.chunks| && AppSound(v, a) && AppOpen(p, a, j)
    ensures AppWrite(v, a, Request(p, p.infos + 2 + j), NO_APP_FAULTS).status == OK
  {
    hide Covers, Flatten, EncodeBegin;
    OffsetBound(p, j);
    DataFields(p.Offset(j), p.chunks[j]);
  }

  lemma EndSucceeds(p: Plan, v: AppEnv, a: App)
    requires p.Valid() && AppConforming(p, v) && AppSound(v, a) && AppOpen(p, a, |p.chunks|)
    ensures AppFinish(v, a, Request(p, p.Last()), NO_APP_FAULTS).status == OK
  {
    hide Flatten, Covers;
    OffsetBound(p, |p.chunks|);
    CoversAll(a.cells, p.Image());
  }

  lemma ExecuteSucceeds(p: Plan, v: AppEnv, a: App, k: nat)
    requires p.Valid() && AppConforming(p, v) && 0 < k <= p.Last() && AppSound(v, a) && AppPhase(p, a, k)
    ensures AppExecute(v, a, Request(p, k), NO_APP_FAULTS).0.status == OK
  {
    hide AppBegin, AppWrite, AppFinish, AppOpen, PayloadAt, AppConforming;
    if k == p.Last() {
      EndSucceeds(p, v, a);
    } else if k == p.infos + 1 {
      BeginSucceeds(p, v, a);
    } else if k > p.infos {
      DataSucceeds(p, v, a, k - p.infos - 2);
    }
  }

  lemma CleanExecutes(p: Plan, v: AppEnv, a: App, k: nat)
    requires p.Valid() && AppConforming(p, v) && 0 < k <= p.Last() && AppSync(p, v, a, k)
    ensures AppProcess(v, a, Request(p, k), NO_APP_FAULTS).executed == Some(OK)
  {
    hide AppExecute, AppPhase, AppProcess, Request, AppConforming;
    AppInStep.NextIsExecuted(p, v, a, k, NO_APP_FAULTS);
    ExecuteSucceeds(p, v, a, k);
  }

  /** In step with the request the host awaits. */
  ghost predicate Abreast(p: Plan, v: AppEnv, a: App, h: nat)
    requires p.Valid() && h <= p.Last()
  {
    if h == 0 then Start(v, a) else AppSync(p, v, a, h)
  }

  /** Without faults the service executes request `k`, holds the reply and awaits the next one. */
  lemma AppCleanStep(p: Plan, v: AppEnv, a: App, k: nat)
    requires p.Valid() && AppConforming(p, v) && 0 < k < p.Last() && Abreast(p, v, a, k)
    ensures var o := AppProcess(v, a, Request(p, k), NO_APP_FAULTS);
      && !o.restart && o.delivered && Judge(p, k, o.answer) == Accepted && Abreast(p, v, o.app, k + 1)
  {
    hide AppSync, AppProcess, Request, AppConforming, Judge, Decode;
    InStepIsSound(p, v, a, k);
    CleanExecutes(p, v, a, k);
    ServeNext(p, v, a, k, NO_APP_FAULTS);
  }

  lemma InStepIsSound(p: Plan, v: AppEnv, a: App, k: nat)
    requires p.Valid() && 0 < k <= p.Last() && AppSync(p, v, a, k)
    ensures AppSound(v, a)
  {
    hide AppSound, AppPhase;
  }

  lemma AppCleanEnd(p: Plan, v: AppEnv, a: App)
    requires p.Valid() && AppConforming(p, v) && Abreast(p, v, a, p.Last())
    ensures AppSound(v, a)
    ensures var o := AppProcess(v, a, Request(p, p.Last()), NO_APP_FAULTS);
      && o.restart && o.delivered && Judge(p, p.Last(), o.answer) == Accepted
      && AppCommitted(p, v, o.app) && AppHoldsImage(p, o.app)
  {
    hide AppSync, AppProcess, Request, AppConforming, Judge, AppCommitted, AppHoldsImage, Decode;
    InStepIsSound(p, v, a, p.Last());
    CleanExecutes(p, v, a, p.Last());
    ServeEnd(p, v, a, NO_APP_FAULTS);
  }

  // ----- Whole updates -----

  function AppRounds(n: nat): seq<AppMove> {
    if n == 0 then [] else AppRounds(n - 1) + [Send] + [AppReceive(NO_APP_FAULTS)] + [HostReceive]
  }

  lemma ExecutionThen(p: Plan, v: AppEnv, s: AppSystem, moves: seq<AppMove>, move: AppMove)
    requires p.Valid() && WellFormed(p, v, s)
    ensures Execution(p, v, s, moves + [move]) == Next(p, v, Execution(p, v, s, moves), move)
  {
    hide Next, WellFormed;
    assert (moves + [move])[..|moves|] == moves;
  }

  /** The host waits for request `h` on empty channels. */
  ghost predicate Calm(s: AppSystem, h: nat) {
    s.host == Waiting(h) && s.toDevice == [] && s.toHost == []
  }

  /** The service will accept the awaited request. */
  ghost predicate Accepting(p: Plan, v: AppEnv, s: AppSystem, h: nat)
    requires p.Valid() && h <= p.Last() && WellFormed(p, v, s)
  {
    && Calm(s, h) && s.mode.Answering?
    && var o := AppProcess(v, s.mode.app, Request(p, h), NO_APP_FAULTS);
      o.delivered && Judge(p, h, o.answer) == Accepted
  }

  ghost predicate Exchanged(p: Plan, v: AppEnv, s: AppSystem, r: AppSystem, h: nat)
    requires p.Valid() && h <= p.Last() && WellFormed(p, v, s)
  {
    && s.mode.Answering? && r.mode == Following(AppProcess(v, s.mode.app, Request(p, h), NO_APP_FAULTS))
    && r.host == (if h == p.Last() then Done else Waiting(h + 1)) && r.toDevice == [] && r.toHost == []
  }

  lemma ExchangeHappens(p: Plan, v: AppEnv, s: AppSystem, h: nat)
    requires p.Valid() && WellFormed(p, v, s) && h <= p.Last() && Accepting(p, v, s, h)
    ensures Exchanged(p, v, s, Next(p, v, Next(p, v, Next(p, v, s, Send), AppReceive(NO_APP_FAULTS)), HostReceive), h)
  {
    hide AppProcess, Judge, Decode, Encode, Request;
    CodecInverse(Encode(Request(p, h)), Request(p, h));
    var o := AppProcess(v, s.mode.app, Request(p, h), NO_APP_FAULTS);
    assert [] + [o.answer] == [o.answer];
  }

  lemma RoundHappens(p: Plan, v: AppEnv, s: AppSystem, n: nat, h: nat)
    requires p.Valid() && WellFormed(p, v, s) && h <= p.Last() && Accepting(p, v, Execution(p, v, s, AppRounds(n)), h)
    ensures Exchanged(p, v, Execution(p, v, s, AppRounds(n)), Execution(p, v, s, AppRounds(n + 1)), h)
  {
    hide Next, Execution, WellFormed, Accepting, Exchanged;
    var m := AppRounds(n);
    ExecutionThen(p, v, s, m, Send);
    ExecutionThen(p, v, s, m + [Send], AppReceive(NO_APP_FAULTS));
    ExecutionThen(p, v, s, m + [Send] + [AppReceive(NO_APP_FAULTS)], HostReceive);
    ExchangeHappens(p, v, Execution(p, v, s, m), h);
  }

  lemma AbreastAccepts(p: Plan, v: AppEnv, s: AppSystem, h: nat)
    requires p.Valid() && AppConforming(p, v) && WellFormed(p, v, s) && h <= p.Last()
    requires Calm(s, h) && s.mode.Answering? && Abreast(p, v, s.mode.app, h)
    ensures Accepting(p, v, s, h)
    ensures var o := AppProcess(v, s.mode.app, Request(p, h), NO_APP_FAULTS);
      if h < p.Last() then !o.restart && Abreast(p, v, o.app, h + 1)
      else o.restart && AppCommitted(p, v, o.app) && AppHoldsImage(p, o.app)
  {
    hide AppProcess, Judge, Request, AppConforming, AppCommitted, AppSync, GreetingCached;
    if h == 0 {
      ServeHello(p, v, s.mode.app, NO_APP_FAULTS);
    } else if h < p.Last() {
      AppCleanStep(p, v, s.mode.app, h);
    } else {
      AppCleanEnd(p, v, s.mode.app);
    }
  }

  /** The host waits for request `h` on empty channels, and the service awaits it. */
  ghost predicate Poised(p: Plan, v: AppEnv, s: AppSystem, h: nat)
    requires p.Valid() && h <= p.Last()
  {
    Calm(s, h) && s.mode.Answering? && Abreast(p, v, s.mode.app, h)
  }

  lemma PoisedMoves(p: Plan, v: AppEnv, s: AppSystem, r: AppSystem, h: nat)
    requires p.Valid() && AppConforming(p, v) && h < p.Last() && WellFormed(p, v, s) && Poised(p, v, s, h)
    requires Exchanged(p, v, s, r, h)
    ensures Poised(p, v, r, h + 1)
  {
    hide AppProcess, Judge, Request, AppConforming, Accepting, Abreast;
    AbreastAccepts(p, v, s, h);
  }

  lemma NoRound(p: Plan, v: AppEnv, s: AppSystem)
    requires p.Valid() && Initial(v, s) && s.mode.Answering? && WellFormed(p, v, s)
    ensures Poised(p, v, Execution(p, v, s, AppRounds(0)), 0)
  {
    hide WellFormed, Start;
  }

  lemma OneRound(p: Plan, v: AppEnv, s: AppSystem, n: nat)
    requires p.Valid() && AppConforming(p, v) && WellFormed(p, v, s) && n < p.Last()
    requires Poised(p, v, Execution(p, v, s, AppRounds(n)), n)
    ensures Poised(p, v, Execution(p, v, s, AppRounds(n + 1)), n + 1)
  {
    hide Execution, Exchanged, Accepting, AppConforming, WellFormed, Abreast, AppRounds;
    var before := Execution(p, v, s, AppRounds(n));
    AbreastAccepts(p, v, before, n);
    RoundHappens(p, v, s, n, n);
    PoisedMoves(p, v, before, Execution(p, v, s, AppRounds(n + 1)), n);
  }

  lemma {:induction false} RoundsAdvance(p: Plan, v: AppEnv, s: AppSystem, n: nat)
    requires p.Valid() && AppConforming(p, v) && Initial(v, s) && s.mode.Answering? && WellFormed(p, v, s)
    requires n <= p.Last()
    ensures Poised(p, v, Execution(p, v, s, AppRounds(n)), n)
    decreases n
  {
    hide Execution, AppConforming, WellFormed, Initial, Poised, AppRounds, Plan.Valid;
    if n == 0 {
      NoRound(p, v, s);
    } else {
      RoundsAdvance(p, v, s, n - 1);
      OneRound(p, v, s, n - 1);
    }
  }

  /** Without faults and losses one exchange per request completes the update of a conforming application, chunks
      of any size included. */
  lemma AppCleanUpdateCompletes(p: Plan, v: AppEnv, s: AppSystem)
    requires p.Valid() && AppConforming(p, v) && Initial(v, s) && s.mode.Answering? && WellFormed(p, v, s)
    ensures var r := Execution(p, v, s, AppRounds(p.infos + |p.chunks| + 3));
      r.host == Done && r.mode.Away? && AppCommitted(p, v, r.mode.app) && AppHoldsImage(p, r.mode.app)
  {
    hide AppProcess, Judge, Request, Abreast, AppConforming, AppCommitted, Execution, Accepting, Initial, AppSound;
    RoundsAdvance(p, v, s, p.Last());
    AbreastAccepts(p, v, Execution(p, v, s, AppRounds(p.Last())), p.Last());
    RoundHappens(p, v, s, p.Last(), p.Last());
  }

  // ----- A call that raised -----

  /** How often the boot partition has been set. */
  function BootsSet(calls: seq<OtaCall>): nat {
    if calls == [] then 0
    else BootsSet(calls[..|calls| - 1]) + (if calls[|calls| - 1] == OtaSetBoot then 1 else 0)
  }

  lemma BootsSetNext(calls: seq<OtaCall>, call: OtaCall)
    ensures BootsSet(calls + [call]) == BootsSet(calls) + (if call == OtaSetBoot then 1 else 0)
  {
    assert (calls + [call])[..|calls|] == calls;
  }

  /** The service executes an END with success. */
  ghost predicate AcceptsEnd(p: Plan, v: AppEnv, s: AppSystem, move: AppMove)
    requires WellFormed(p, v, s)
  {
    && move.AppReceive? && s.mode.Answering? && s.toDevice != [] && Decode(s.toDevice[0]).Ok?
    && Decode(s.toDevice[0]).value.command == END
    && AppProcess(v, s.mode.app, Decode(s.toDevice[0]).value, move.faults).executed == Some(OK)
  }

  ghost predicate EndAccepted(p: Plan, v: AppEnv, s: AppSystem, moves: seq<AppMove>)
    requires p.Valid() && WellFormed(p, v, s)
    decreases |moves|
  {
    moves != []
    && (EndAccepted(p, v, s, moves[..|moves| - 1])
        || AcceptsEnd(p, v, Execution(p, v, s, moves[..|moves| - 1]), moves[|moves| - 1]))
  }

  lemma AbortSetsNothing(a: App)
    ensures BootsSet(AppAbort(a).calls) == BootsSet(a.calls)
  {
    BootsSetNext(a.calls, OtaAbort(a.handle));
  }

  lemma FinishSets(v: AppEnv, a: App, f: Frame, x: AppFaults)
    requires AppSound(v, a)
    ensures var h := AppFinish(v, a, f, x);
      BootsSet(h.app.calls) == BootsSet(a.calls) + (if h.status == OK then 1 else 0)
  {
    hide BootsSet;
    var ended := a.calls + [OtaEnd(a.handle, !x.end)];
    BootsSetNext(a.calls, OtaEnd(a.handle, !x.end));
    BootsSetNext(ended, OtaSetBoot);
  }

  lemma WriteSetsNothing(v: AppEnv, a: App, f: Frame, x: AppFaults)
    requires AppSound(v, a)
    ensures BootsSet(AppWrite(v, a, f, x).app.calls) == BootsSet(a.calls)
  {
    hide BootsSet;
    if |f.payload| > OFFSET_SIZE {
      BootsSetNext(a.calls, OtaWrite(a.handle, f.payload[OFFSET_SIZE..]));
    }
  }

  lemma BeginSetsNothing(v: AppEnv, a: App, f: Frame, x: AppFaults)
    requires AppSound(v, a)
    ensures BootsSet(AppBegin(v, a, f, x).app.calls) == BootsSet(a.calls)
  {
    hide BootsSet, Begun;
    AbortSetsNothing(a);
    var a1 := if a.state == Receiving then AppAbort(a) else a;
    BootsSetNext(a1.calls, OtaBegin(Begun(a1.calls) + 1));
  }

  lemma ExecuteSets(v: AppEnv, a: App, f: Frame, x: AppFaults)
    requires AppSound(v, a)
    ensures var h := AppExecute(v, a, f, x).0;
      BootsSet(h.app.calls) == BootsSet(a.calls) + (if f.command == END && h.status == OK then 1 else 0)
  {
    hide BootsSet, AppBegin, AppWrite, AppFinish, AppAbort, AppSound;
    AbortSetsNothing(a);
    BeginSetsNothing(v, a, f, x);
    WriteSetsNothing(v, a, f, x);
    FinishSets(v, a, f, x);
  }

  /** Exactly an END that is executed with success sets the boot partition. */
  lemma ProcessSets(v: AppEnv, a: App, f: Frame, x: AppFaults)
    requires AppSound(v, a)
    ensures var o := AppProcess(v, a, f, x);
      BootsSet(o.app.calls) == BootsSet(a.calls) + (if f.command == END && o.executed == Some(OK) then 1 else 0)
    ensures BootsSet(AppTimeout(a).calls) == BootsSet(a.calls)
  {
    hide BootsSet, AppExecute, AppAbort, AppReply, AppMatchesLast, Encode;
    AbortSetsNothing(a);
    if AppProcess(v, a, f, x).executed.Some? {
      AdmittedSound(v, a, f);
      ExecuteSets(v, Admitted(a, f), f, x);
    }
  }

  lemma AdmittedSound(v: AppEnv, a: App, f: Frame)
    requires AppSound(v, a)
    ensures AppSound(v, Admitted(a, f))
  {
  }

  lemma StepSets(p: Plan, v: AppEnv, s: AppSystem, move: AppMove)
    requires p.Valid() && WellFormed(p, v, s)
    ensures BootsSet(Next(p, v, s, move).mode.app.calls)
      == BootsSet(s.mode.app.calls) + (if AcceptsEnd(p, v, s, move) then 1 else 0)
  {
    hide BootsSet, AppProcess, Decode, AppSound, AppTimeout, Remove, Double;
    if s.mode.Answering? {
      ProcessSets(v, s.mode.app, Frame(0, 0, 0, []), NO_APP_FAULTS);
      if move.AppReceive? && s.toDevice != [] && Decode(s.toDevice[0]).Ok? {
        ProcessSets(v, s.mode.app, Decode(s.toDevice[0]).value, move.faults);
      }
    }
  }

  /** The state after the success of the host's call, whatever has become of the call itself. */
  ghost predicate After(p: Plan, v: AppEnv, s: AppSystem, kept: bool)
    requires p.Valid()
  {
    (s.host.Done? || s.host.step == p.Last()) && Over(p, v, s.mode, s.toDevice, kept)
  }

  lemma AfterKeeps(p: Plan, v: AppEnv, s: AppSystem, move: AppMove, kept: bool)
    requires p.Valid() && WellFormed(p, v, s) && After(p, v, s, kept) && (kept ==> Tolerable(v, s, move))
    ensures After(p, v, Next(p, v, s, move), kept)
  {
    hide Over, AppStep, Judge, Remove, Double, SoundMode, Tolerable;
    var d := s.(host := Done);
    DoneTolerable(v, s, move);
    StepKeeps(p, v, d, move, kept);
    if move.AppReceive? {
      HostAside(p, v, s, move.faults);
    } else if move.Send? && s.host.Waiting? {
      SendAfter(p, v, s, Encode(Request(p, p.Last())), kept);
    }
  }

  lemma DoneTolerable(v: AppEnv, s: AppSystem, move: AppMove)
    requires SoundMode(v, s.mode)
    ensures Tolerable(v, s.(host := Done), move) <==> Tolerable(v, s, move)
  {
    hide ToleratedBy, AppProcess, Decode;
  }

  lemma HostAside(p: Plan, v: AppEnv, s: AppSystem, x: AppFaults)
    requires WellFormed(p, v, s)
    ensures AppStep(p, v, s.(host := Done), x) == AppStep(p, v, s, x).(host := Done)
  {
    hide AppEndToEnd.Served, Decode;
  }

  lemma SendAfter(p: Plan, v: AppEnv, s: AppSystem, m: seq<byte>, kept: bool)
    requires p.Valid() && Over(p, v, s.mode, s.toDevice, kept) && Is(p, RequestNo(p.Last()), m)
    ensures Over(p, v, s.mode, s.toDevice + [m], kept)
  {
    hide Is, AppCommitted, Final, AppHoldsImage;
  }

  lemma AcceptingEnters(p: Plan, v: AppEnv, s: AppSystem, move: AppMove, kept: bool)
    requires p.Valid() && WellFormed(p, v, s) && Invariant(p, v, s, kept) && AcceptsEnd(p, v, s, move)
    requires kept ==> Tolerable(v, s, move)
    ensures After(p, v, Next(p, v, s, move), kept)
  {
    hide Is, All, Any, Sent, AppProcess, Request, Decode, Encode, AppCommitted, Engaged, Start, ToleratedBy,
      AppHoldsImage, Unanswered;
    var x, q, a := move.faults, s.toDevice, s.mode.app;
    StepKeeps(p, v, s, move, kept);
    if !s.host.Done? {
      var i := HeadIndex(p, q, s.host.step);
      RequestDecodes(p, i, q[0]);
      RequestShape(p, i);
      TailSent(p, q, s.host.step);
      AcceptedFinds(p, v, s, x, kept);
    }
  }

  /** A service that executes END with success has not committed before, and commits. */
  lemma AcceptedFinds(p: Plan, v: AppEnv, s: AppSystem, x: AppFaults, kept: bool)
    requires p.Valid() && !s.host.Done? && s.host.step == p.Last()
    requires s.mode.Answering? && AppSound(v, s.mode.app) && Invariant(p, v, s, kept)
    requires AppProcess(v, s.mode.app, Request(p, p.Last()), x).executed == Some(OK)
    requires kept ==> ToleratedBy(s.mode.app, Request(p, p.Last()), AppProcess(v, s.mode.app, Request(p, p.Last()), x))
    ensures Final(p, v, AppProcess(v, s.mode.app, Request(p, p.Last()), x).app, kept)
  {
    hide Is, All, Any, Sent, AppProcess, Request, AppCommitted, Start, ToleratedBy, AppHoldsImage, Unanswered, Ours;
    if Over(p, v, s.mode, s.toDevice, kept) {
      ServeFinal(p, v, s.mode.app, x, kept);
    } else {
      ServeAny(p, v, s.mode.app, p.Last(), x, kept);
    }
  }

  /** Over every run, whatever has become of the host's call: the boot partition is set exactly when an END is
      executed with success. */
  lemma {:induction false} AppBootSetExactlyWhenAccepted(p: Plan, v: AppEnv, s: AppSystem, moves: seq<AppMove>,
                                                         kept: bool)
    requires p.Valid() && Initial(v, s) && WellFormed(p, v, s) && (kept ==> TolerableRun(p, v, s, moves))
    ensures var r := Execution(p, v, s, moves);
      && (BootsSet(r.mode.app.calls) == BootsSet(s.mode.app.calls) <==> !EndAccepted(p, v, s, moves))
      && BootsSet(r.mode.app.calls) >= BootsSet(s.mode.app.calls)
      && (EndAccepted(p, v, s, moves) ==> After(p, v, r, kept))
    decreases |moves|
  {
    hide Next, Invariant, Initial, WellFormed, After, BootsSet, AcceptsEnd, Tolerable;
    if moves != [] {
      var before, move := Execution(p, v, s, moves[..|moves| - 1]), moves[|moves| - 1];
      AppBootSetExactlyWhenAccepted(p, v, s, moves[..|moves| - 1], kept);
      ExecutionKeeps(p, v, s, moves[..|moves| - 1], kept);
      StepSets(p, v, before, move);
      if EndAccepted(p, v, s, moves[..|moves| - 1]) {
        AfterKeeps(p, v, before, move, kept);
      } else if AcceptsEnd(p, v, before, move) {
        AcceptingEnters(p, v, before, move, kept);
      }
    }
  }

  /** A call of the host that raised, exactly: the boot partition was not set if and only if no END was executed with
      success; one can have been only if the call was waiting for the reply to END, and then what the target starts
      with has the announced hash, and is the image under either assumption of the success theorem. */
  lemma AppFailedCall(p: Plan, v: AppEnv, s: AppSystem, moves: seq<AppMove>, r: AppSystem)
    requires p.Valid() && Initial(v, s) && WellFormed(p, v, s) && r == Execution(p, v, s, moves) && r.host.Failed?
    ensures BootsSet(r.mode.app.calls) == BootsSet(s.mode.app.calls) <==> !EndAccepted(p, v, s, moves)
    ensures EndAccepted(p, v, s, moves) ==> r.host.step == p.Last() && AppCommitted(p, v, r.mode.app)
    ensures EndAccepted(p, v, s, moves) && (TolerableRun(p, v, s, moves) || OnlyImageHashes(p, v)) ==>
      AppHoldsImage(p, r.mode.app)
  {
    hide Execution, Initial, WellFormed, BootsSet, EndAccepted, Final, All, TolerableRun;
    AppBootSetExactlyWhenAccepted(p, v, s, moves, TolerableRun(p, v, s, moves));
  }

  // ----- The hypotheses can be met -----

  /** Whatever frames, timeouts and failures came before, the service can start a plan. */
  lemma EarlierRunsAreInitial(p: Plan, v: AppEnv, a: App, events: seq<AppEvent>)
    requires p.Valid() && AppSound(v, a) && a.reply.None?
    ensures var s := AppSystem(Waiting(0), [], [], Answering(AppRun(v, a, NOTHING, events).0));
      Initial(v, s) && WellFormed(p, v, s)
  {
    hide AppSound, GreetingCached, AppRun;
    GreetingCachedOverRuns(v, a, events);
  }

  const NO_DIGEST: seq<byte> := seq(DIGEST_SIZE, _ => 0)

  /** The smallest update of an application that has just started. */
  lemma AppSmallestUpdate() returns (p: Plan, v: AppEnv, s: AppSystem)
    ensures p.Valid() && AppConforming(p, v) && Initial(v, s) && s.mode.Answering? && WellFormed(p, v, s)
  {
    p := Plan(0, [], NO_DIGEST, [[7]]);
    assert p.chunks[..0] == [] && p.Image() == [] + [7] == [7];
    v := AppEnv(Some(1), _ => NO_DIGEST, _ => []);
    var a := App([], [0], AppService.Idle, 0, 0, 0, NO_DIGEST, 0, false, Key(0, 0, 0), None);
    s := AppSystem(Waiting(0), [], [], Answering(a));
  }
}
