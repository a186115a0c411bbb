/** The host and the application's update service over two lossy FIFO channels. */
module AppEndToEnd {
  import opened Bytes
  import opened Frames
  import opened Device
  import opened HostProtocol
  import opened Messages
  import opened AppService
  import opened AppDiscipline
  import opened AppInStep

  /** The service while it answers, and the state it was left in when its device restarted into another image. */
  datatype AppMode = Answering(app: App) | Away(app: App)

  datatype AppSystem = AppSystem(host: Host, toDevice: seq<seq<byte>>, toHost: seq<seq<byte>>, mode: AppMode)

  /** One step; the outcomes of the OTA calls and of sending the reply are free. */
  datatype AppMove =
    | Send | GiveUp | HostReceive
    | AppReceive(faults: AppFaults)
    | LoseToDevice(at: nat) | LoseToHost(at: nat)
    | DuplicateToDevice(at: nat) | DuplicateToHost(at: nat)
    | SessionTimeout | PowerCycle | Leave

  // ----- The steps -----

  ghost predicate SoundMode(v: AppEnv, m: AppMode) {
    m.Answering? ==> AppSound(v, m.app)
  }

  ghost predicate WellFormed(p: Plan, v: AppEnv, s: AppSystem) {
    SoundMode(v, s.mode) && (!s.host.Done? ==> s.host.step <= p.Last())
  }

  function Following(o: AppOutcome): AppMode {
    if o.restart then Away(o.app) else Answering(o.app)
  }

  function Replies(o: AppOutcome): seq<seq<byte>> {
    if o.delivered then [o.answer] else []
  }

  ghost function Served(v: AppEnv, m: AppMode, f: Frame, x: AppFaults): (r: (AppMode, seq<seq<byte>>))
    requires SoundMode(v, m)
    ensures SoundMode(v, r.0)
  {
    match m
    case Away(_) => (m, [])
    case Answering(a) =>
      AppProcessSound(v, a, f, x);
      var o := AppProcess(v, a, f, x);
      (Following(o), Replies(o))
  }

  ghost function AppStep(p: Plan, v: AppEnv, s: AppSystem, x: AppFaults): (r: AppSystem)
    requires WellFormed(p, v, s)
    ensures WellFormed(p, v, r) && r.host == s.host
  {
    if s.toDevice == [] then s
    else match Decode(s.toDevice[0])
      case Err(_) => s.(toDevice := s.toDevice[1..])
      case Ok(f) =>
        var (mode, replies) := Served(v, s.mode, f, x);
        s.(toDevice := s.toDevice[1..], toHost := s.toHost + replies, mode := mode)
  }

  ghost function HostStep(p: Plan, v: AppEnv, s: AppSystem): (r: AppSystem)
    requires p.Valid() && WellFormed(p, v, s)
    ensures WellFormed(p, v, r) && r.mode == s.mode
  {
    if s.toHost == [] || !s.host.Waiting? then s
    else s.(toHost := s.toHost[1..], host := Judged(p, s.host.step, s.toHost[0]))
  }

  /** The service as a restart of the same image finds it; the OTA calls made and the flash stay. */
  function Rebooted(a: App): App {
    a.(state := Idle, handle := 0, imageSize := 0, nextOffset := 0, digest := seq(DIGEST_SIZE, _ => 0),
       expected := 0, session := false, reply := None)
  }

  /** A power cycle starts the service afresh, unless the boot partition was set last. */
  function Cycled(m: AppMode): AppMode {
    match m
    case Away(_) => m
    case Answering(a) => if BootsNewImage(a) then Away(a) else Answering(Rebooted(a))
  }

  function Timed(m: AppMode): AppMode {
    match m
    case Away(_) => m
    case Answering(a) => Answering(AppTimeout(a))
  }

  lemma ModesSound(v: AppEnv, m: AppMode)
    requires SoundMode(v, m)
    ensures SoundMode(v, Cycled(m)) && SoundMode(v, Timed(m))
  {
  }

  ghost function Next(p: Plan, v: AppEnv, s: AppSystem, move: AppMove): (r: AppSystem)
    requires p.Valid() && WellFormed(p, v, s)
    ensures WellFormed(p, v, r)
  {
    ModesSound(v, s.mode);
    match move
    case Send => if s.host.Waiting? then s.(toDevice := s.toDevice + [Encode(Request(p, s.host.step))]) else s
    case GiveUp => if s.host.Waiting? then s.(host := Failed(s.host.step)) else s
    case HostReceive => HostStep(p, v, s)
    case AppReceive(x) => AppStep(p, v, s, x)
    case LoseToDevice(at) => s.(toDevice := Remove(s.toDevice, at))
    case LoseToHost(at) => s.(toHost := Remove(s.toHost, at))
    case DuplicateToDevice(at) => s.(toDevice := Double(s.toDevice, at))
    case DuplicateToHost(at) => s.(toHost := Double(s.toHost, at))
    case SessionTimeout => s.(mode := Timed(s.mode))
    case PowerCycle => s.(mode := Cycled(s.mode))
    case Leave => s.(mode := Away(s.mode.app))
  }

  ghost function Execution(p: Plan, v: AppEnv, s: AppSystem, moves: seq<AppMove>): (r: AppSystem)
    requires p.Valid() && WellFormed(p, v, s)
    ensures WellFormed(p, v, r)
    decreases |moves|
  {
    if moves == [] then s
    else Next(p, v, Execution(p, v, s, moves[..|moves| - 1]), moves[|moves| - 1])
  }

  /** A failed OTA write clears no bit that the data keep. */
  ghost predicate Tolerable(v: AppEnv, s: AppSystem, move: AppMove)
    requires SoundMode(v, s.mode)
  {
    move.AppReceive? && s.mode.Answering? && s.toDevice != [] && Decode(s.toDevice[0]).Ok? ==>
      var f := Decode(s.toDevice[0]).value; ToleratedBy(s.mode.app, f, AppProcess(v, s.mode.app, f, move.faults))
  }

  ghost predicate TolerableRun(p: Plan, v: AppEnv, s: AppSystem, moves: seq<AppMove>)
    requires p.Valid() && WellFormed(p, v, s)
    decreases |moves|
  {
    moves == [] ||
    (TolerableRun(p, v, s, moves[..|moves| - 1])
      && Tolerable(v, Execution(p, v, s, moves[..|moves| - 1]), moves[|moves| - 1]))
  }

  // ----- The invariant -----

  /** No acceptance of END is under way. */
  ghost predicate Unanswered(p: Plan, toHost: seq<seq<byte>>)
    requires p.Valid()
  {
    !Any(p, AcceptanceOf(p.Last()), toHost)
  }

  /** The plan is committed, and only ENDs are still under way to the device. */
  ghost predicate Over(p: Plan, v: AppEnv, m: AppMode, toDevice: seq<seq<byte>>, kept: bool)
    requires p.Valid()
  {
    && AppCommitted(p, v, m.app) && (kept ==> AppHoldsImage(p, m.app))
    && (m.Answering? ==> Final(p, v, m.app, kept))
    && All(p, RequestNo(p.Last()), toDevice)
  }

  ghost predicate ModeAgrees(p: Plan, v: AppEnv, s: AppSystem, h: nat, kept: bool)
    requires p.Valid()
  {
    || (Over(p, v, s.mode, s.toDevice, kept) && h == p.Last())
    || (Unanswered(p, s.toHost) && (s.mode.Away? || Engaged(p, v, s.mode.app, kept)))
    || (Unanswered(p, s.toHost) && h == 0 && !Any(p, AcceptanceOf(0), s.toHost)
        && s.mode.Answering? && Start(v, s.mode.app))
  }

  /** Requests sent while the host came as far as `h`; once it awaits END, only ENDs follow an END. */
  ghost predicate Sent(p: Plan, h: nat, toDevice: seq<seq<byte>>)
    requires p.Valid()
  {
    Line(p, RequestUpTo(h), if h == p.Last() then RequestNo(h) else Never, toDevice)
  }

  /** The requests under way are those sent so far, and only ENDs are behind an END; the service has committed the
      plan, or no acceptance of END is cached or under way and an open update is the plan's own. */
  ghost predicate Invariant(p: Plan, v: AppEnv, s: AppSystem, kept: bool)
    requires p.Valid()
  {
    if s.host.Done? then Over(p, v, s.mode, s.toDevice, kept)
    else
      && s.host.step <= p.Last() && Sent(p, s.host.step, s.toDevice)
      && ModeAgrees(p, v, s, s.host.step, kept)
  }

  /** Both channels empty, nothing sent yet; the service in any state earlier frames left it in. */
  ghost predicate Initial(v: AppEnv, s: AppSystem) {
    && s.host == Waiting(0) && s.toDevice == [] && s.toHost == []
    && (s.mode.Answering? ==> Start(v, s.mode.app))
  }

  lemma InitialHolds(p: Plan, v: AppEnv, s: AppSystem, kept: bool)
    requires p.Valid() && Initial(v, s)
    ensures WellFormed(p, v, s) && Invariant(p, v, s, kept)
  {
    hide Is;
  }

  // ----- One request served -----

  lemma HeadIndex(p: Plan, q: seq<seq<byte>>, h: nat) returns (i: nat)
    requires p.Valid() && h <= p.Last() && q != [] && Sent(p, h, q)
    ensures i <= h && Is(p, RequestNo(i), q[0])
    ensures i == p.Last() ==> h == i
    ensures All(p, RequestNo(p.Last()), q) <==> i == p.Last()
  {
    hide Encode, Request, Decode;
    i :| 0 <= i <= h && i <= p.Last() && q[0] == Encode(Request(p, i));
    if All(p, RequestNo(p.Last()), q) {
      RequestDecodes(p, i, q[0]);
      RequestDecodes(p, p.Last(), q[0]);
      RequestShape(p, i);
      RequestShape(p, p.Last());
    }
  }

  lemma TailSent(p: Plan, q: seq<seq<byte>>, h: nat)
    requires p.Valid() && q != [] && Sent(p, h, q)
    ensures Sent(p, h, q[1..]) && (All(p, RequestNo(p.Last()), q) ==> All(p, RequestNo(p.Last()), q[1..]))
  {
    hide Is, Line, All;
    CutIsTail(q);
    CutKeeps(p, RequestUpTo(h), if h == p.Last() then RequestNo(h) else Never, q, 0, 1);
    CutWithin(p, RequestNo(p.Last()), q, 0, 1);
  }

  lemma UnansweredStays(p: Plan, t: seq<seq<byte>>, o: AppOutcome)
    requires p.Valid() && Unanswered(p, t) && !Is(p, AcceptanceOf(p.Last()), o.answer)
    ensures Unanswered(p, t + Replies(o))
  {
    hide Is, Any;
    assert t + [] == t;
    AppendAny(p, AcceptanceOf(p.Last()), t, o.answer);
  }

  /** The service answers request `i`. */
  ghost predicate Answered(p: Plan, v: AppEnv, s: AppSystem, r: AppSystem, i: nat, x: AppFaults)
    requires p.Valid() && i <= p.Last() && s.mode.Answering? && AppSound(v, s.mode.app) && s.toDevice != []
  {
    var o := AppProcess(v, s.mode.app, Request(p, i), x);
    r == s.(toDevice := s.toDevice[1..], toHost := s.toHost + Replies(o), mode := Following(o))
  }

  lemma AnsweredKeeps(p: Plan, v: AppEnv, s: AppSystem, r: AppSystem, i: nat, x: AppFaults, kept: bool)
    requires p.Valid() && !s.host.Done? && s.mode.Answering? && AppSound(v, s.mode.app) && s.toDevice != []
    requires Invariant(p, v, s, kept) && i <= s.host.step && Answered(p, v, s, r, i, x)
    requires i == p.Last() ==> All(p, RequestNo(p.Last()), s.toDevice)
    requires All(p, RequestNo(p.Last()), s.toDevice) ==> i == p.Last()
    requires kept ==> ToleratedBy(s.mode.app, Request(p, i), AppProcess(v, s.mode.app, Request(p, i), x))
    ensures Invariant(p, v, r, kept)
  {
    hide Is, Any, All, Sent, AppProcess, Request, AppCommitted, Ours, ToleratedBy, GreetingCached, Unanswered,
      AppHoldsImage;
    var a, h := s.mode.app, s.host.step;
    var o := AppProcess(v, a, Request(p, i), x);
    TailSent(p, s.toDevice, h);
    if Over(p, v, s.mode, s.toDevice, kept) {
      ServeFinal(p, v, a, x, kept);
    } else {
      if Engaged(p, v, a, kept) {
        ServeAny(p, v, a, i, x, kept);
      } else {
        ServeFirst(p, v, a, x, kept);
      }
      if i < p.Last() || o.executed != Some(OK) {
        UnansweredStays(p, s.toHost, o);
      }
    }
  }

  lemma AppStepKeeps(p: Plan, v: AppEnv, s: AppSystem, x: AppFaults, kept: bool)
    requires p.Valid() && WellFormed(p, v, s) && Invariant(p, v, s, kept) && !s.host.Done? && s.toDevice != []
    requires kept ==> Tolerable(v, s, AppReceive(x))
    ensures Invariant(p, v, AppStep(p, v, s, x), kept)
  {
    hide Is, Any, All, Sent, AppProcess, Request, Decode, Encode, Final, Engaged, Unanswered, ToleratedBy,
      AppCommitted, AppHoldsImage;
    var i := HeadIndex(p, s.toDevice, s.host.step);
    RequestDecodes(p, i, s.toDevice[0]);
    if s.mode.Answering? {
      AnsweredKeeps(p, v, s, AppStep(p, v, s, x), i, x, kept);
    } else {
      assert s.toHost + [] == s.toHost;
      TailSent(p, s.toDevice, s.host.step);
    }
  }

  // ----- The other steps -----

  /** Losing, doubling or adding requests, and losing or doubling replies. */
  lemma QueuesMove(p: Plan, v: AppEnv, s: AppSystem, r: AppSystem, kept: bool)
    requires p.Valid() && Invariant(p, v, s, kept) && !s.host.Done? && !r.host.Done? && r.host.step == s.host.step
    requires r.mode == s.mode && Sent(p, s.host.step, r.toDevice)
    requires All(p, RequestNo(p.Last()), s.toDevice) && s.host.step == p.Last() ==>
      All(p, RequestNo(p.Last()), r.toDevice)
    requires forall k :: Any(p, k, r.toHost) ==> Any(p, k, s.toHost)
    ensures Invariant(p, v, r, kept)
  {
    hide Is, Any, All, Sent, Final, Engaged, AppCommitted, AppHoldsImage, Start;
  }

  lemma QueuesCut(p: Plan, v: AppEnv, s: AppSystem, r: AppSystem, a: nat, b: nat, c: nat, e: nat, kept: bool)
    requires p.Valid() && Invariant(p, v, s, kept) && !s.host.Done? && !r.host.Done? && r.host.step == s.host.step
    requires a <= |s.toDevice| && b <= |s.toDevice| && a <= b + 1
    requires c <= |s.toHost| && e <= |s.toHost|
    requires r == s.(toDevice := Cut(s.toDevice, a, b), toHost := Cut(s.toHost, c, e), host := r.host)
    ensures Invariant(p, v, r, kept)
  {
    hide Is, Any, All, Line, ModeAgrees, Cut;
    var h := s.host.step;
    CutKeeps(p, RequestUpTo(h), if h == p.Last() then RequestNo(h) else Never, s.toDevice, a, b);
    CutWithin(p, RequestNo(p.Last()), s.toDevice, a, b);
    forall k ensures Any(p, k, r.toHost) ==> Any(p, k, s.toHost) {
      CutWithin(p, k, s.toHost, c, e);
    }
    QueuesMove(p, v, s, r, kept);
  }

  lemma SendKeeps(p: Plan, v: AppEnv, s: AppSystem, kept: bool)
    requires p.Valid() && WellFormed(p, v, s) && s.host.Waiting? && Invariant(p, v, s, kept)
    ensures Invariant(p, v, Next(p, v, s, Send), kept)
  {
    hide Any, Line, ModeAgrees, Encode, Request;
    var h, m := s.host.step, Encode(Request(p, s.host.step));
    var r := Next(p, v, s, Send);
    if h == p.Last() {
      AppendFresh(p, RequestUpTo(h), RequestNo(h), s.toDevice, m);
    } else {
      NeverAny(p, s.toDevice);
      AppendStale(p, RequestUpTo(h), Never, s.toDevice, m);
    }
    QueuesMove(p, v, s, r, kept);
  }

  lemma NeverAny(p: Plan, q: seq<seq<byte>>)
    requires p.Valid()
    ensures !Any(p, Never, q)
  {
  }

  lemma DisturbanceKeeps(p: Plan, v: AppEnv, s: AppSystem, move: AppMove, kept: bool)
    requires p.Valid() && WellFormed(p, v, s) && !s.host.Done? && Invariant(p, v, s, kept)
    requires move.LoseToDevice? || move.LoseToHost? || move.DuplicateToDevice? || move.DuplicateToHost?
    ensures Invariant(p, v, Next(p, v, s, move), kept)
  {
    hide Invariant, Cut, AppStep, HostStep;
    var r, q, t, at := Next(p, v, s, move), s.toDevice, s.toHost, move.at;
    CutNothing(q);
    CutNothing(t);
    if move.LoseToDevice? && at < |q| {
      QueuesCut(p, v, s, r, at, at + 1, 0, 0, kept);
    } else if move.DuplicateToDevice? && at < |q| {
      QueuesCut(p, v, s, r, at + 1, at, 0, 0, kept);
    } else if move.LoseToHost? && at < |t| {
      QueuesCut(p, v, s, r, 0, 0, at, at + 1, kept);
    } else if move.DuplicateToHost? && at < |t| {
      QueuesCut(p, v, s, r, 0, 0, at + 1, at, kept);
    }
  }

  lemma AcceptanceFirst(p: Plan, t: seq<seq<byte>>, h: nat)
    requires p.Valid() && t != [] && h <= p.Last() && Judge(p, h, t[0]) == Accepted
    ensures Any(p, AcceptanceOf(h), t)
  {
    hide Judge;
  }

  /** As the host moves on, what was sent so far is still what was sent so far; an END is not yet among it. */
  lemma SentFurther(p: Plan, q: seq<seq<byte>>, h: nat)
    requires p.Valid() && h < p.Last() && Sent(p, h, q)
    ensures Sent(p, h + 1, q)
  {
    hide Encode, Request;
    forall i | 0 <= i < |q| ensures Is(p, RequestUpTo(h + 1), q[i]) && !Is(p, RequestNo(p.Last()), q[i]) {
      var k :| 0 <= k <= h && k <= p.Last() && q[i] == Encode(Request(p, k));
      EndDiffers(p, k);
    }
  }

  lemma EndDiffers(p: Plan, k: nat)
    requires p.Valid() && k < p.Last()
    ensures Encode(Request(p, k)) != Encode(Request(p, p.Last()))
  {
    hide Encode, Request, Decode;
    var m := Encode(Request(p, k));
    CodecInverse(m, Request(p, k));
    CodecInverse(m, Request(p, p.Last()));
    RequestShape(p, k);
    RequestShape(p, p.Last());
  }

  lemma AcceptKeeps(p: Plan, v: AppEnv, s: AppSystem, kept: bool)
    requires p.Valid() && WellFormed(p, v, s) && s.host.Waiting? && Invariant(p, v, s, kept) && s.toHost != []
    requires Judge(p, s.host.step, s.toHost[0]) == Accepted
    ensures Invariant(p, v, HostStep(p, v, s), kept)
  {
    hide Any, All, Sent, Judge, Engaged, Final, Start, AppCommitted, AppHoldsImage, Is;
    var h := s.host.step;
    AcceptanceFirst(p, s.toHost, h);
    CutIsTail(s.toHost);
    CutWithin(p, AcceptanceOf(p.Last()), s.toHost, 0, 1);
    if h < p.Last() {
      SentFurther(p, s.toDevice, h);
    }
  }

  lemma HostStepKeeps(p: Plan, v: AppEnv, s: AppSystem, kept: bool)
    requires p.Valid() && WellFormed(p, v, s) && !s.host.Done? && Invariant(p, v, s, kept)
    ensures Invariant(p, v, HostStep(p, v, s), kept)
  {
    hide Invariant, Judge, Cut;
    if s.host.Waiting? && s.toHost != [] {
      if Judge(p, s.host.step, s.toHost[0]) == Accepted {
        AcceptKeeps(p, v, s, kept);
      } else {
        CutNothing(s.toDevice);
        CutIsTail(s.toHost);
        QueuesCut(p, v, s, HostStep(p, v, s), 0, 0, 0, 1, kept);
      }
    }
  }

  // ----- What happens to the device on its own -----

  /** A timeout, a restart and leaving keep what the service has committed, and open no update. */
  lemma AloneKeeps(p: Plan, v: AppEnv, a: App, kept: bool)
    requires p.Valid() && AppSound(v, a)
    ensures Engaged(p, v, a, kept) ==> Engaged(p, v, AppTimeout(a), kept) && Engaged(p, v, Rebooted(a), kept)
    ensures Final(p, v, a, kept) ==> Final(p, v, AppTimeout(a), kept)
    ensures Start(v, a) ==> Start(v, AppTimeout(a)) && Start(v, Rebooted(a))
  {
    hide Is;
  }

  lemma AloneStepKeeps(p: Plan, v: AppEnv, s: AppSystem, r: AppSystem, kept: bool)
    requires p.Valid() && WellFormed(p, v, s) && Invariant(p, v, s, kept)
    requires r == s.(mode := Timed(s.mode)) || r == s.(mode := Cycled(s.mode)) || r == s.(mode := Away(s.mode.app))
    ensures Invariant(p, v, r, kept)
  {
    hide Is, Any, All, Sent, Engaged, Start, AppTimeout, Rebooted, AppSound, Unanswered;
    if s.mode.Answering? {
      AloneKeeps(p, v, s.mode.app, kept);
      SameTarget(p, v, s.mode.app);
    }
  }

  lemma SameTarget(p: Plan, v: AppEnv, a: App)
    requires p.Valid()
    ensures AppTimeout(a).cells == a.cells && (a.state != Receiving ==> AppTimeout(a).calls == a.calls)
  {
  }

  // ----- After success -----

  lemma DoneStep(p: Plan, v: AppEnv, s: AppSystem, x: AppFaults, kept: bool)
    requires p.Valid() && WellFormed(p, v, s) && s.host.Done? && Invariant(p, v, s, kept) && s.toDevice != []
    ensures Invariant(p, v, AppStep(p, v, s, x), kept)
  {
    hide Is, AppCommitted, AppProcess, Decode, AppSound, AppHoldsImage;
    RequestDecodes(p, p.Last(), s.toDevice[0]);
    TailWithin(p, RequestNo(p.Last()), s.toDevice, s.toDevice[1..]);
    if s.mode.Answering? {
      ServeFinal(p, v, s.mode.app, x, kept);
    }
  }

  lemma EmptyStep(p: Plan, v: AppEnv, s: AppSystem, x: AppFaults)
    requires WellFormed(p, v, s) && s.toDevice == []
    ensures AppStep(p, v, s, x) == s
  {
    hide Served;
  }

  predicate MovesQueues(move: AppMove) {
    !move.AppReceive? && !move.SessionTimeout? && !move.PowerCycle? && !move.Leave?
  }

  lemma DoneQueues(p: Plan, v: AppEnv, s: AppSystem, move: AppMove, kept: bool)
    requires p.Valid() && WellFormed(p, v, s) && s.host.Done? && Invariant(p, v, s, kept) && MovesQueues(move)
    ensures Invariant(p, v, Next(p, v, s, move), kept)
  {
    hide Is, All, AppCommitted, AppHoldsImage, Final, Cut, AppStep;
    var k, q := RequestNo(p.Last()), s.toDevice;
    if move.LoseToDevice? && move.at < |q| {
      CutWithin(p, k, q, move.at, move.at + 1);
    } else if move.DuplicateToDevice? && move.at < |q| {
      CutWithin(p, k, q, move.at + 1, move.at);
    }
  }

  // ----- Every run -----

  lemma GiveUpKeeps(p: Plan, v: AppEnv, s: AppSystem, kept: bool)
    requires p.Valid() && WellFormed(p, v, s) && Invariant(p, v, s, kept)
    ensures Invariant(p, v, Next(p, v, s, GiveUp), kept)
  {
    hide Sent, Over, Unanswered, Engaged, Start;
  }

  lemma QueueStepKeeps(p: Plan, v: AppEnv, s: AppSystem, move: AppMove, kept: bool)
    requires p.Valid() && WellFormed(p, v, s) && Invariant(p, v, s, kept) && !s.host.Done? && MovesQueues(move)
    ensures Invariant(p, v, Next(p, v, s, move), kept)
  {
    hide Invariant, AppStep, HostStep, Remove, Double;
    match move
    case Send =>
      if s.host.Waiting? {
        SendKeeps(p, v, s, kept);
      }
    case GiveUp => GiveUpKeeps(p, v, s, kept);
    case HostReceive => HostStepKeeps(p, v, s, kept);
    case _ => DisturbanceKeeps(p, v, s, move, kept);
  }

  /** Every step keeps it: no acceptance of END is ever cached or under way before the commit, an open update is the
      plan's own, and after the commit nothing that could undo it is under way. */
  lemma StepKeeps(p: Plan, v: AppEnv, s: AppSystem, move: AppMove, kept: bool)
    requires p.Valid() && WellFormed(p, v, s) && Invariant(p, v, s, kept) && (kept ==> Tolerable(v, s, move))
    ensures Invariant(p, v, Next(p, v, s, move), kept)
  {
    hide Invariant, AppStep, HostStep, Remove, Double, Timed, Cycled, Tolerable;
    if move.AppReceive? {
      if s.toDevice == [] {
        EmptyStep(p, v, s, move.faults);
      } else if s.host.Done? {
        DoneStep(p, v, s, move.faults, kept);
      } else {
        AppStepKeeps(p, v, s, move.faults, kept);
      }
    } else if !MovesQueues(move) {
      AloneStepKeeps(p, v, s, Next(p, v, s, move), kept);
    } else if s.host.Done? {
      DoneQueues(p, v, s, move, kept);
    } else {
      QueueStepKeeps(p, v, s, move, kept);
    }
  }

  lemma {:induction false} ExecutionKeeps(p: Plan, v: AppEnv, s: AppSystem, moves: seq<AppMove>, kept: bool)
    requires p.Valid() && Initial(v, s) && WellFormed(p, v, s) && (kept ==> TolerableRun(p, v, s, moves))
    ensures Invariant(p, v, Execution(p, v, s, moves), kept)
    decreases |moves|
  {
    hide Invariant, Next, Initial, WellFormed, Tolerable;
    if moves == [] {
      InitialHolds(p, v, s, kept);
    } else {
      ExecutionKeeps(p, v, s, moves[..|moves| - 1], kept);
      StepKeeps(p, v, Execution(p, v, s, moves[..|moves| - 1]), moves[|moves| - 1], kept);
    }
  }

  /** No other image of that size has the announced hash. */
  ghost predicate OnlyImageHashes(p: Plan, v: AppEnv) {
    forall s :: |s| == |p.Image()| && v.sha256(s) == p.digest ==> s == p.Image()
  }

  /** Over every interleaving of loss, duplication, retransmission, failing OTA calls, replies that were not sent or
      not reported as sent, timeouts and power cycles: when the host's call returns, the last of the OTA calls has set
      the boot partition, and what the target starts with has the announced hash. It is the image itself if failed
      writes cleared no bit that the data keep, or if no other image has that hash. */
  lemma AppSuccessMeansCommitted(p: Plan, v: AppEnv, s: AppSystem, moves: seq<AppMove>)
    requires p.Valid() && Initial(v, s) && WellFormed(p, v, s)
    requires Execution(p, v, s, moves).host == Done
    ensures var a := Execution(p, v, s, moves).mode.app;
      && a.calls != [] && a.calls[|a.calls| - 1] == OtaSetBoot
      && |p.Image()| <= |a.cells| && v.sha256(a.cells[..|p.Image()|]) == p.digest
      && (TolerableRun(p, v, s, moves) || OnlyImageHashes(p, v) ==> a.cells[..|p.Image()|] == p.Image())
  {
    hide Execution, Initial, WellFormed, All, Final, TolerableRun;
    ExecutionKeeps(p, v, s, moves, TolerableRun(p, v, s, moves));
  }
}
