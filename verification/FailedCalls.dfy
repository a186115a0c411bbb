/** What a host whose call raised may conclude about the boot selection. */
module FailedCalls {
  import opened Bytes
  import opened Frames
  import opened OtaData
  import opened Device
  import opened UpdateSafety
  import opened HostProtocol
  import opened InStep
  import opened Messages
  import opened EndToEnd

  /** The device executes an END and restarts. */
  ghost predicate AcceptsEnd(g: Goal, s: System, move: Move)
    requires g.Valid() && WellFormed(g, s)
  {
    && move.DeviceReceive? && s.mode.Serving? && s.toDevice != [] && Decode(s.toDevice[0]).Ok?
    && Process(g.env, s.mode.device, Decode(s.toDevice[0]).value, move.faults).action == Reset
  }

  ghost predicate EndAccepted(g: Goal, s: System, moves: seq<Move>)
    requires g.Valid() && WellFormed(g, s)
    decreases |moves|
  {
    moves != []
    && (EndAccepted(g, s, moves[..|moves| - 1])
        || AcceptsEnd(g, Execution(g, s, moves[..|moves| - 1]), moves[|moves| - 1]))
  }

  lemma NotBoth(g: Goal, cells: seq<byte>)
    requires g.Valid()
    ensures !(NotCommitted(g, cells) && Committed(g, cells))
  {
    hide ActiveEntry, ActiveSequence;
  }

  /** A session is open only before the commit. */
  lemma ServingIsNotCommitted(g: Goal, s: System)
    requires g.Valid() && Invariant(g, s) && s.mode.Serving?
    ensures NotCommitted(g, s.mode.device.cells) && Sound(g.env, s.mode.device) && !s.host.Done?
  {
    hide NotCommitted, Sound, Line, Any, All, Phase, Judge, MatchesLast;
  }

  lemma FlashIsSettled(g: Goal, s: System)
    requires g.Valid() && Invariant(g, s)
    ensures NotCommitted(g, s.mode.Flash()) || Committed(g, s.mode.Flash())
    ensures !s.host.Done? && s.host.step < g.plan.Last() ==> NotCommitted(g, s.mode.Flash())
  {
    hide NotCommitted, Committed, Sound, Line, Any, All, Phase, Judge, MatchesLast;
  }

  // ----- One step -----

  lemma HelloKeepsCells(g: Goal, d: Device, f: Frame, x: Faults)
    requires Sound(g.env, d) && f.command == HELLO
    ensures Process(g.env, d, f, x).device.cells == d.cells
  {
    hide Sound, BeginUpdate, WriteUpdate, FinishUpdate;
    ProcessEffect(g.env, d, f, x);
  }

  lemma SessionKeepsCells(g: Goal, s: System, x: Faults)
    requires g.Valid() && WellFormed(g, s) && !s.mode.Serving?
    ensures DeviceStep(g, s, x).mode.Flash() == s.mode.Flash()
  {
    hide Process, Decode;
    if s.toDevice != [] && Decode(s.toDevice[0]).Ok? && s.mode.Entry? && OpensSession(Decode(s.toDevice[0]).value) {
      FreshSound(g.env, s.mode.cells);
      HelloKeepsCells(g, Fresh(g.env, s.mode.cells), Decode(s.toDevice[0]).value, x);
    }
  }

  lemma ServingKeeps(g: Goal, s: System, x: Faults)
    requires g.Valid() && WellFormed(g, s) && s.mode.Serving? && NotCommitted(g, s.mode.device.cells)
    requires Tolerable(g, s, DeviceReceive(x)) && !AcceptsEnd(g, s, DeviceReceive(x))
    ensures NotCommitted(g, DeviceStep(g, s, x).mode.Flash())
  {
    hide Process, Decode, NotCommitted, Sound, BenignStep, NorFailure, Effect;
    if s.toDevice != [] && Decode(s.toDevice[0]).Ok? {
      var d, f := s.mode.device, Decode(s.toDevice[0]).value;
      var o := Process(g.env, d, f, x);
      ProcessEffect(g.env, d, f, x);
      StillNotCommitted(g, d, f, x, o);
    }
  }

  /** Only an accepted END changes what the flash selects. */
  lemma QuietStep(g: Goal, s: System, move: Move)
    requires g.Valid() && WellFormed(g, s) && Invariant(g, s) && Tolerable(g, s, move) && !AcceptsEnd(g, s, move)
    ensures NotCommitted(g, s.mode.Flash()) ==> NotCommitted(g, Next(g, s, move).mode.Flash())
    ensures Committed(g, s.mode.Flash()) ==> Committed(g, Next(g, s, move).mode.Flash())
  {
    hide NotCommitted, Committed, Invariant, Tolerable, AcceptsEnd, DeviceStep, SoundMode;
    if move.DeviceReceive? {
      if s.mode.Serving? {
        ServingIsNotCommitted(g, s);
        NotBoth(g, s.mode.Flash());
        ServingKeeps(g, s, move.faults);
      } else {
        SessionKeepsCells(g, s, move.faults);
      }
    }
  }

  lemma ResetNeedsEnd(g: Goal, d: Device, f: Frame, x: Faults)
    requires Sound(g.env, d) && Process(g.env, d, f, x).action == Reset
    ensures f.command == END
  {
    hide Sound, BeginUpdate, WriteUpdate, FinishUpdate, Process;
    ProcessEffect(g.env, d, f, x);
  }

  lemma OnlyLastIsEnd(p: Plan, i: nat)
    requires p.Valid() && i <= p.Last() && Request(p, i).command == END
    ensures i == p.Last()
  {
  }

  lemma AwaitedIsBounded(g: Goal, s: System)
    requires g.Valid() && Invariant(g, s) && !s.host.Done?
    ensures s.host.step <= g.plan.Last()
  {
    hide ModeAgrees, Channels;
  }

  /** The message the device takes next is a request of the plan, the awaited one or the one before. */
  lemma NextMessage(g: Goal, s: System) returns (i: nat)
    requires g.Valid() && Invariant(g, s) && !s.host.Done? && s.toDevice != []
    ensures Is(g.plan, RequestNo(i), s.toDevice[0]) && i <= s.host.step <= i + 1 && s.host.step <= g.plan.Last()
  {
    hide Is, Invariant;
    var h := s.host.step;
    AwaitedIsBounded(g, s);
    FailedLikeWaiting(g, s, h);
    i := HeadIndex(g, s.(host := Waiting(h)), h);
  }

  lemma AcceptingStep(g: Goal, s: System, move: Move)
    requires g.Valid() && WellFormed(g, s) && Invariant(g, s) && Tolerable(g, s, move) && AcceptsEnd(g, s, move)
    ensures Committed(g, Next(g, s, move).mode.Flash())
  {
    hide Is, Process, Decode, Committed, NotCommitted, Sound, Request, Judge, MatchesLast, Phase, Any, All, Line,
      Admissible;
    ServingIsNotCommitted(g, s);
    var h, d := s.host.step, s.mode.device;
    var i := NextMessage(g, s);
    RequestDecodes(g.plan, i, s.toDevice[0]);
    ResetNeedsEnd(g, d, Request(g.plan, i), move.faults);
    OnlyLastIsEnd(g.plan, i);
    ServeEnd(g, d, move.faults);
  }

  // ----- Whole runs -----

  /** Over every run, whatever has become of the host's call: the new image is selected exactly when an END has been
      accepted, and until then the flash selects what it selected at the start. */
  lemma {:induction false} CommittedExactlyWhenAccepted(g: Goal, s: System, moves: seq<Move>)
    requires g.Valid() && Initial(g, s) && WellFormed(g, s) && TolerableRun(g, s, moves)
    ensures var r := Execution(g, s, moves);
      && (Committed(g, r.mode.Flash()) <==> EndAccepted(g, s, moves))
      && (NotCommitted(g, r.mode.Flash()) <==> !EndAccepted(g, s, moves))
    decreases |moves|
  {
    hide Next, Tolerable, Invariant, AcceptsEnd, Committed, NotCommitted, WellFormed, Initial;
    var r := Execution(g, s, moves);
    ExecutionKeeps(g, s, moves);
    NotBoth(g, r.mode.Flash());
    if moves == [] {
      InitialIsNotCommitted(g, s);
    } else {
      var before, move := Execution(g, s, moves[..|moves| - 1]), moves[|moves| - 1];
      CommittedExactlyWhenAccepted(g, s, moves[..|moves| - 1]);
      ExecutionKeeps(g, s, moves[..|moves| - 1]);
      if AcceptsEnd(g, before, move) {
        AcceptingStep(g, before, move);
      } else {
        QuietStep(g, before, move);
      }
    }
  }

  lemma InitialIsNotCommitted(g: Goal, s: System)
    requires g.Valid() && Initial(g, s)
    ensures NotCommitted(g, s.mode.Flash())
  {
    hide NotCommitted, Sound;
  }

  /** A host call that raised, exactly: the boot selection is the one at the start if and only if no END was
      accepted; one can have been accepted only if the call was waiting for the reply to END, and then the whole
      image is in the target and selected. */
  lemma FailedCall(g: Goal, s: System, moves: seq<Move>, r: System)
    requires g.Valid() && Initial(g, s) && WellFormed(g, s) && TolerableRun(g, s, moves)
    requires r == Execution(g, s, moves) && r.host.Failed?
    ensures |s.mode.Flash()| == |r.mode.Flash()| == g.env.layout.flashSize
    ensures Selected(g.env.layout, r.mode.Flash()) == Selected(g.env.layout, s.mode.Flash())
      <==> !EndAccepted(g, s, moves)
    ensures EndAccepted(g, s, moves) ==> r.host.step == g.plan.Last() && Committed(g, r.mode.Flash())
  {
    hide Execution, Initial, WellFormed, Committed, NotCommitted, TolerableRun, EndAccepted, Invariant, Selected;
    CommittedExactlyWhenAccepted(g, s, moves);
    InitialIsNotCommitted(g, s);
    ExecutionKeeps(g, s, moves);
    FlashIsSettled(g, r);
    AwaitedIsBounded(g, r);
    SelectionTells(g, s.mode.Flash(), r.mode.Flash());
  }

  lemma SelectionTells(g: Goal, before: seq<byte>, after: seq<byte>)
    requires g.Valid() && NotCommitted(g, before) && (NotCommitted(g, after) || Committed(g, after))
    ensures |before| == |after| == g.env.layout.flashSize
    ensures Selected(g.env.layout, after) == Selected(g.env.layout, before) <==> NotCommitted(g, after)
    ensures NotCommitted(g, after) <==> !Committed(g, after)
  {
    hide ActiveEntry, ActiveSequence, MarkerIsNext;
  }
}
