/** The host and the bootloader over two lossy FIFO channels, and the end-to-end promise of an update. */
module EndToEnd {
  import opened Bytes
  import opened Frames
  import opened OtaData
  import opened Device
  import opened ReplyCache
  import opened HostProtocol
  import opened InStep
  import opened Messages

  /** The bootloader before its first frame, inside a session, or after it has left for the application. */
  datatype Mode = Entry(cells: seq<byte>) | Serving(device: Device) | Gone(cells: seq<byte>)
  {
    function Flash(): seq<byte> {
      if Serving? then device.cells else cells
    }
  }

  datatype System = System(host: Host, toDevice: seq<seq<byte>>, toHost: seq<seq<byte>>, mode: Mode)

  /** One step; a power cut in the middle of an operation is its failure, a lost reply and a reset. */
  datatype Move =
    | Send | GiveUp | HostReceive
    | DeviceReceive(faults: Faults)
    | LoseToDevice(at: nat) | LoseToHost(at: nat)
    | DuplicateToDevice(at: nat) | DuplicateToHost(at: nat)
    | DeviceReset | DeviceLeave

  // ----- The steps -----

  ghost predicate SoundMode(g: Goal, m: Mode)
    requires g.Valid()
  {
    if m.Serving? then Sound(g.env, m.device) else |m.cells| == g.env.layout.flashSize
  }

  function AfterAction(d: Device, action: Action): Mode {
    match action
    case Continue => Serving(d)
    case Boot => Gone(d.cells)
    case Reset => Entry(d.cells)
  }

  ghost function Answer(g: Goal, m: Mode, f: Frame, x: Faults): (r: (Mode, seq<seq<byte>>))
    requires g.Valid() && SoundMode(g, m)
    ensures SoundMode(g, r.0)
  {
    match m
    case Gone(_) => (m, [])
    case Entry(cells) =>
      if !OpensSession(f) then (Gone(cells), [])
      else
        FreshSound(g.env, cells);
        var o := Process(g.env, Fresh(g.env, cells), f, x);
        ProcessSound(g.env, Fresh(g.env, cells), f, x);
        (Serving(o.device), [o.sent])
    case Serving(d) =>
      var o := Process(g.env, d, f, x);
      ProcessSound(g.env, d, f, x);
      (AfterAction(o.device, o.action), [o.sent])
  }

  ghost predicate WellFormed(g: Goal, s: System)
    requires g.Valid()
  {
    SoundMode(g, s.mode) && (!s.host.Done? ==> s.host.step <= g.plan.Last())
  }

  ghost function DeviceStep(g: Goal, s: System, x: Faults): (r: System)
    requires g.Valid() && WellFormed(g, s)
    ensures WellFormed(g, r) && r.host == s.host
  {
    if s.toDevice == [] then s
    else match Decode(s.toDevice[0])
      case Err(_) => s.(toDevice := s.toDevice[1..])
      case Ok(f) =>
        var (mode, replies) := Answer(g, s.mode, f, x);
        s.(toDevice := s.toDevice[1..], toHost := s.toHost + replies, mode := mode)
  }

  ghost function HostStep(g: Goal, s: System): (r: System)
    requires g.Valid() && WellFormed(g, s)
    ensures WellFormed(g, r) && r.mode == s.mode
  {
    if s.toHost == [] || !s.host.Waiting? then s
    else s.(toHost := s.toHost[1..], host := Judged(g.plan, s.host.step, s.toHost[0]))
  }

  ghost function Next(g: Goal, s: System, move: Move): (r: System)
    requires g.Valid() && WellFormed(g, s)
    ensures WellFormed(g, r)
  {
    match move
    case Send =>
      if s.host.Waiting? then s.(toDevice := s.toDevice + [Encode(Request(g.plan, s.host.step))]) else s
    case GiveUp => if s.host.Waiting? then s.(host := Failed(s.host.step)) else s
    case HostReceive => HostStep(g, s)
    case DeviceReceive(x) => DeviceStep(g, s, x)
    case LoseToDevice(at) => s.(toDevice := Remove(s.toDevice, at))
    case LoseToHost(at) => s.(toHost := Remove(s.toHost, at))
    case DuplicateToDevice(at) => s.(toDevice := Double(s.toDevice, at))
    case DuplicateToHost(at) => s.(toHost := Double(s.toHost, at))
    case DeviceReset => s.(mode := Entry(s.mode.Flash()))
    case DeviceLeave => s.(mode := Gone(s.mode.Flash()))
  }

  ghost function Execution(g: Goal, s: System, moves: seq<Move>): (r: System)
    requires g.Valid() && WellFormed(g, s)
    ensures WellFormed(g, r)
    decreases |moves|
  {
    if moves == [] then s
    else Next(g, Execution(g, s, moves[..|moves| - 1]), moves[|moves| - 1])
  }

  /** Flash faults may fail or tear an operation, but a torn otadata entry does not read as valid and a failed
      image write does not clear bits that the data keeps. */
  ghost predicate Tolerable(g: Goal, s: System, move: Move)
    requires g.Valid() && WellFormed(g, s)
  {
    move.DeviceReceive? && s.mode.Serving? && s.toDevice != [] && Decode(s.toDevice[0]).Ok? ==>
      Admissible(g.env, s.mode.device, Decode(s.toDevice[0]).value, move.faults)
  }

  ghost predicate TolerableRun(g: Goal, s: System, moves: seq<Move>)
    requires g.Valid() && WellFormed(g, s)
    decreases |moves|
  {
    moves == [] ||
    (TolerableRun(g, s, moves[..|moves| - 1])
      && Tolerable(g, Execution(g, s, moves[..|moves| - 1]), moves[|moves| - 1]))
  }

  // ----- The invariant -----

  /** A device no request of this plan has reached yet, whatever earlier sessions left in it. */
  ghost predicate Idle(g: Goal, d: Device)
    requires g.Valid()
  {
    Sound(g.env, d) && Coherent(d) && d.target == Some(g.target) && NotCommitted(g, d.cells)
  }

  ghost predicate Ready(g: Goal, d: Device, h: nat)
    requires g.Valid() && h <= g.plan.Last()
  {
    if h == 0 then Idle(g, d) else Sync(g, d, h)
  }

  /** In step, or exactly one request ahead and holding the reply to it. */
  ghost predicate InStepOrAhead(g: Goal, d: Device, toDevice: seq<seq<byte>>, toHost: seq<seq<byte>>, h: nat)
    requires g.Valid() && h < g.plan.Last()
  {
    || (Sync(g, d, h + 1) && All(g.plan, RequestNo(h), toDevice))
    || (Ready(g, d, h) && !Any(g.plan, AcceptanceOf(h), toHost))
  }

  ghost predicate ModeAgrees(g: Goal, s: System, h: nat)
    requires g.Valid() && h <= g.plan.Last()
  {
    if s.mode.Serving? then
      if h < g.plan.Last() then InStepOrAhead(g, s.mode.device, s.toDevice, s.toHost, h)
      else Sync(g, s.mode.device, h) && !Any(g.plan, AcceptanceOf(h), s.toHost)
    else
      || (NotCommitted(g, s.mode.cells) && (h == g.plan.Last() ==> !Any(g.plan, AcceptanceOf(h), s.toHost)))
      || (h == g.plan.Last() && Committed(g, s.mode.cells) && All(g.plan, RequestNo(h), s.toDevice))
  }

  ghost predicate Invariant(g: Goal, s: System)
    requires g.Valid()
  {
    match s.host
    case Done => !s.mode.Serving? && Committed(g, s.mode.cells) && All(g.plan, RequestNo(g.plan.Last()), s.toDevice)
    case Waiting(h) => h <= g.plan.Last() && Channels(g.plan, s.toDevice, s.toHost, h) && ModeAgrees(g, s, h)
    case Failed(h) => h <= g.plan.Last() && Channels(g.plan, s.toDevice, s.toHost, h) && ModeAgrees(g, s, h)
  }

  /** Both channels empty, nothing sent yet; the device before, inside or after any earlier session. */
  ghost predicate Initial(g: Goal, s: System)
    requires g.Valid()
  {
    && s.host == Waiting(0) && s.toDevice == [] && s.toHost == []
    && (if s.mode.Serving? then Idle(g, s.mode.device) else NotCommitted(g, s.mode.cells))
  }

  lemma InitialHolds(g: Goal, s: System)
    requires g.Valid() && Initial(g, s)
    ensures WellFormed(g, s) && Invariant(g, s)
  {
    hide Sound, Selected, ActiveSequence, ActiveEntry, CommitSequence;
  }

  // ----- Steps outside the device -----

  /** Losing, doubling or adding current messages never hurts. */
  lemma ChannelsMove(g: Goal, s: System, r: System, h: nat)
    requires g.Valid() && h <= g.plan.Last() && Channels(g.plan, s.toDevice, s.toHost, h) && ModeAgrees(g, s, h)
    requires r.mode == s.mode
    requires Line(g.plan, StaleRequest(h), RequestNo(h), r.toDevice)
    requires Line(g.plan, StaleReply(h), ReplyNo(h), r.toHost)
    requires All(g.plan, RequestNo(h), s.toDevice) ==> All(g.plan, RequestNo(h), r.toDevice)
    requires Any(g.plan, ReplyNo(h), r.toHost) ==> Any(g.plan, ReplyNo(h), s.toHost)
    requires Any(g.plan, AcceptanceOf(h), r.toHost) ==> Any(g.plan, AcceptanceOf(h), s.toHost)
    ensures Channels(g.plan, r.toDevice, r.toHost, h) && ModeAgrees(g, r, h)
  {
    hide Is, All, Any, Line, Sync, Ready, NotCommitted, Committed;
  }

  lemma QueuesCut(g: Goal, s: System, r: System, h: nat, a: nat, b: nat, c: nat, e: nat)
    requires g.Valid() && h <= g.plan.Last() && Channels(g.plan, s.toDevice, s.toHost, h) && ModeAgrees(g, s, h)
    requires a <= |s.toDevice| && b <= |s.toDevice| && a <= b + 1
    requires c <= |s.toHost| && e <= |s.toHost| && c <= e + 1
    requires r == s.(toDevice := Cut(s.toDevice, a, b), toHost := Cut(s.toHost, c, e))
    ensures Channels(g.plan, r.toDevice, r.toHost, h) && ModeAgrees(g, r, h)
  {
    hide Is, All, Any, Line, Sync, Ready, NotCommitted, Committed, ModeAgrees, Cut;
    CutKeeps(g.plan, StaleRequest(h), RequestNo(h), s.toDevice, a, b);
    CutWithin(g.plan, RequestNo(h), s.toDevice, a, b);
    CutKeeps(g.plan, StaleReply(h), ReplyNo(h), s.toHost, c, e);
    CutWithin(g.plan, ReplyNo(h), s.toHost, c, e);
    CutWithin(g.plan, AcceptanceOf(h), s.toHost, c, e);
    ChannelsMove(g, s, r, h);
  }

  lemma SendKeeps(g: Goal, s: System, h: nat)
    requires g.Valid() && WellFormed(g, s) && s.host == Waiting(h) && Invariant(g, s)
    ensures Invariant(g, Next(g, s, Send))
  {
    hide All, Any, Line, Sync, Ready, NotCommitted, Committed, ModeAgrees, Sound;
    var m := Encode(Request(g.plan, h));
    AppendFresh(g.plan, StaleRequest(h), RequestNo(h), s.toDevice, m);
    ChannelsMove(g, s, Next(g, s, Send), h);
  }

  lemma SessionEndKeeps(g: Goal, s: System, r: System, h: nat)
    requires g.Valid() && s.host == Waiting(h) && Invariant(g, s)
    requires !r.mode.Serving? && r.mode.cells == s.mode.Flash() && r == s.(mode := r.mode)
    ensures Invariant(g, r)
  {
    hide Is, All, Any, Line, NotCommitted, Committed, Sound, Coherent, Phase, MatchesLast, Judge, Request;
  }

  /** An accepted reply: everything under way is now old, and the device is in step with the next request. */
  lemma AcceptKeeps(g: Goal, s: System, h: nat)
    requires g.Valid() && WellFormed(g, s) && s.host == Waiting(h) && Invariant(g, s)
    requires s.toHost != [] && Judge(g.plan, h, s.toHost[0]) == Accepted
    ensures Invariant(g, HostStep(g, s))
  {
    hide All, Any, Line, Sync, NotCommitted, Committed, Sound, Decode, Judge, Request, Ready;
    AcceptanceIsReply(g.plan, h, s.toHost[0]);
    HeadFresh(g.plan, StaleReply(h), ReplyNo(h), s.toHost);
    HeadIsSome(g.plan, AcceptanceOf(h), s.toHost);
    HeadIsSome(g.plan, ReplyNo(h), s.toHost);
    if h < g.plan.Last() {
      AcceptAdvances(g, s, h, s.toHost[1..]);
    }
  }

  lemma AcceptAdvances(g: Goal, s: System, h: nat, rest: seq<seq<byte>>)
    requires g.Valid() && h < g.plan.Last() && s.toHost != [] && rest == s.toHost[1..]
    requires All(g.plan, RequestNo(h), s.toDevice) && All(g.plan, ReplyNo(h), s.toHost)
    requires Any(g.plan, AcceptanceOf(h), s.toHost)
    requires ModeAgrees(g, s, h)
    ensures Channels(g.plan, s.toDevice, rest, h + 1) && ModeAgrees(g, s.(toHost := rest), h + 1)
  {
    hide Is, All, Any, Line, Sync, NotCommitted, Committed, Ready;
    NextReplyDiffers(g.plan, h);
    NextRequestDiffers(g.plan, h);
    TailWithin(g.plan, ReplyNo(h), s.toHost, rest);
    Outdated(g.plan, RequestNo(h), RequestNo(h + 1), s.toDevice);
    Outdated(g.plan, ReplyNo(h), ReplyNo(h + 1), rest);
    NoAcceptanceYet(g.plan, h + 1, rest);
    ReadyIsSync(g, s.mode, h + 1);
  }

  lemma ReadyIsSync(g: Goal, m: Mode, h: nat)
    requires g.Valid() && 0 < h <= g.plan.Last()
    ensures m.Serving? ==> (Ready(g, m.device, h) <==> Sync(g, m.device, h))
  {
    hide Sync;
  }

  // ----- What the device answers -----

  /** A request the device has already executed is answered from the cache. */
  lemma ServeRepeated(g: Goal, d: Device, h: nat, x: Faults)
    requires g.Valid() && 0 < h <= g.plan.Last() && Sync(g, d, h)
    ensures Sound(g.env, d)
    ensures var o := Process(g.env, d, Request(g.plan, h - 1), x);
      && o.device == d && o.action == Continue
      && Is(g.plan, AcceptanceOf(h - 1), o.sent) && Is(g.plan, ReplyNo(h - 1), o.sent)
  {
    hide Decode, Phase, NotCommitted, Request, Judge;
    AcceptanceIsReply(g.plan, h - 1, d.cache.value.reply);
  }

  lemma ServeCurrent(g: Goal, d: Device, h: nat, x: Faults)
    requires g.Valid() && h < g.plan.Last() && Ready(g, d, h) && Sound(g.env, d)
    requires Admissible(g.env, d, Request(g.plan, h), x) || h == 0
    ensures var o := Process(g.env, d, Request(g.plan, h), x);
      && o.action == Continue && Is(g.plan, ReplyNo(h), o.sent)
      && (if Is(g.plan, AcceptanceOf(h), o.sent) then Sync(g, o.device, h + 1) else Ready(g, o.device, h))
  {
    hide Decode, Process, Sync, Judge, Sound, NotCommitted, Coherent, Admissible;
    if h == 0 {
      HelloSyncs(g, d, x);
    } else {
      SyncStep(g, d, h, x);
    }
  }

  lemma ServeEnd(g: Goal, d: Device, x: Faults)
    requires g.Valid() && Sync(g, d, g.plan.Last()) && Sound(g.env, d)
    requires Admissible(g.env, d, Request(g.plan, g.plan.Last()), x)
    ensures var h := g.plan.Last(); var o := Process(g.env, d, Request(g.plan, h), x);
      && Is(g.plan, ReplyNo(h), o.sent)
      && (if o.action == Reset then Committed(g, o.device.cells)
          else o.action == Continue && !Is(g.plan, AcceptanceOf(h), o.sent) && Sync(g, o.device, h))
  {
    hide Decode, Process, Sync, Judge, Sound, Committed, Admissible;
    SyncEnd(g, d, x);
  }

  /** After a reset the HELLO that is still under way opens a session in step. */
  lemma ServeEntry(g: Goal, cells: seq<byte>, x: Faults)
    requires g.Valid() && NotCommitted(g, cells)
    ensures Sound(g.env, Fresh(g.env, cells))
    ensures var o := Process(g.env, Fresh(g.env, cells), Request(g.plan, 0), x);
      Sync(g, o.device, 1) && Is(g.plan, AcceptanceOf(0), o.sent) && Is(g.plan, ReplyNo(0), o.sent)
  {
    hide Decode, Process, Sync, Judge, Sound, Selected, ActiveSequence, CommitSequence, ChooseTarget;
    FreshSound(g.env, cells);
    HelloSyncs(g, Fresh(g.env, cells), x);
  }

  // ----- What the answer does to the channels -----

  lemma RequestDropped(g: Goal, s: System, r: System, h: nat)
    requires g.Valid() && s.host == Waiting(h) && Invariant(g, s) && s.toDevice != [] && !s.mode.Serving?
    requires r == s.(toDevice := s.toDevice[1..], mode := Gone(s.mode.cells)) || r == s.(toDevice := s.toDevice[1..])
    ensures Invariant(g, r)
  {
    hide Is, All, Any, Line, Cut, NotCommitted, Committed;
    CutIsTail(s.toDevice);
    CutKeeps(g.plan, StaleRequest(h), RequestNo(h), s.toDevice, 0, 1);
    CutWithin(g.plan, RequestNo(h), s.toDevice, 0, 1);
  }

  // ----- The device step -----

  lemma SessionStepAhead(g: Goal, s: System, h: nat, x: Faults, d: Device)
    requires g.Valid() && WellFormed(g, s) && s.host == Waiting(h) && h < g.plan.Last() && s.mode == Serving(d)
    requires Channels(g.plan, s.toDevice, s.toHost, h) && s.toDevice != [] && Is(g.plan, RequestNo(h), s.toDevice[0])
    requires Sync(g, d, h + 1)
    ensures Invariant(g, DeviceStep(g, s, x))
  {
    hide Is, Any, Line, All, Channels, Sync, Process, Judge, Sound, Decode, Request, Encode, Plan.Valid;
    RequestDecodes(g.plan, h, s.toDevice[0]);
    ServeRepeated(g, d, h + 1, x);
    CurrentAnswered(g.plan, s.toDevice, s.toHost, h, Process(g.env, d, Request(g.plan, h), x).sent);
  }

  lemma SessionStepReady(g: Goal, s: System, h: nat, x: Faults, d: Device)
    requires g.Valid() && WellFormed(g, s) && s.host == Waiting(h) && h < g.plan.Last() && s.mode == Serving(d)
    requires Channels(g.plan, s.toDevice, s.toHost, h) && s.toDevice != [] && Is(g.plan, RequestNo(h), s.toDevice[0])
    requires Ready(g, d, h) && !Any(g.plan, AcceptanceOf(h), s.toHost) && Tolerable(g, s, DeviceReceive(x))
    ensures Invariant(g, DeviceStep(g, s, x))
  {
    hide Is, Any, Line, All, Channels, Sync, Process, Judge, Sound, Decode, Ready, Admissible;
    RequestDecodes(g.plan, h, s.toDevice[0]);
    ServeCurrent(g, d, h, x);
    CurrentAnswered(g.plan, s.toDevice, s.toHost, h, Process(g.env, d, Request(g.plan, h), x).sent);
  }

  lemma SessionStepEnd(g: Goal, s: System, x: Faults, d: Device)
    requires g.Valid() && WellFormed(g, s) && s.host == Waiting(g.plan.Last()) && s.mode == Serving(d)
    requires Channels(g.plan, s.toDevice, s.toHost, g.plan.Last()) && s.toDevice != []
    requires Is(g.plan, RequestNo(g.plan.Last()), s.toDevice[0])
    requires Sync(g, d, g.plan.Last()) && !Any(g.plan, AcceptanceOf(g.plan.Last()), s.toHost)
    requires Tolerable(g, s, DeviceReceive(x))
    ensures Invariant(g, DeviceStep(g, s, x))
  {
    hide Is, Any, Line, All, Channels, Sync, Process, Judge, Sound, Decode, Admissible, Committed, NotCommitted;
    var h := g.plan.Last();
    RequestDecodes(g.plan, h, s.toDevice[0]);
    ServeEnd(g, d, x);
    CurrentAnswered(g.plan, s.toDevice, s.toHost, h, Process(g.env, d, Request(g.plan, h), x).sent);
  }

  lemma SessionStepStale(g: Goal, s: System, h: nat, x: Faults, d: Device)
    requires g.Valid() && WellFormed(g, s) && s.host == Waiting(h) && 0 < h && s.mode == Serving(d)
    requires Invariant(g, s) && s.toDevice != [] && Is(g.plan, RequestNo(h - 1), s.toDevice[0])
    ensures Invariant(g, DeviceStep(g, s, x))
  {
    hide Is, Any, Line, All, Channels, Sync, Process, Judge, Sound, Decode, Ready;
    RequestDecodes(g.plan, h - 1, s.toDevice[0]);
    StaleMeansReady(g, s, h);
    ServeRepeated(g, d, h, x);
    ReadyIsSync(g, s.mode, h);
    StaleAnswered(g.plan, s.toDevice, s.toHost, h, Process(g.env, d, Request(g.plan, h - 1), x).sent);
  }

  lemma StaleMeansReady(g: Goal, s: System, h: nat)
    requires g.Valid() && 0 < h <= g.plan.Last() && s.mode.Serving? && ModeAgrees(g, s, h)
    requires s.toDevice != [] && Is(g.plan, RequestNo(h - 1), s.toDevice[0])
    ensures Sync(g, s.mode.device, h)
  {
    hide Is, Any, Sync;
    NextRequestDiffers(g.plan, h - 1);
  }

  lemma HeadIndex(g: Goal, s: System, h: nat) returns (i: nat)
    requires g.Valid() && s.host == Waiting(h) && Invariant(g, s) && s.toDevice != []
    ensures Is(g.plan, RequestNo(i), s.toDevice[0]) && i <= h <= i + 1
  {
    hide ModeAgrees;
    i := if Is(g.plan, RequestNo(h), s.toDevice[0]) then h else h - 1;
  }

  lemma SessionStep(g: Goal, s: System, h: nat, x: Faults)
    requires g.Valid() && WellFormed(g, s) && s.host == Waiting(h) && s.mode.Serving? && s.toDevice != []
    requires Invariant(g, s) && Tolerable(g, s, DeviceReceive(x))
    ensures Invariant(g, DeviceStep(g, s, x))
  {
    hide Is, Any, All, Sync, Sound, Ready, Tolerable, Committed, NotCommitted, DeviceStep;
    var d := s.mode.device;
    var i := HeadIndex(g, s, h);
    if i != h {
      SessionStepStale(g, s, h, x, d);
    } else if h == g.plan.Last() {
      SessionStepEnd(g, s, x, d);
    } else if Sync(g, d, h + 1) {
      SessionStepAhead(g, s, h, x, d);
    } else {
      SessionStepReady(g, s, h, x, d);
    }
  }

  lemma EntryStepHello(g: Goal, s: System, h: nat, x: Faults)
    requires g.Valid() && WellFormed(g, s) && s.host == Waiting(h) && s.mode.Entry? && s.toDevice != []
    requires Invariant(g, s) && h <= 1 && Is(g.plan, RequestNo(0), s.toDevice[0])
    ensures Invariant(g, DeviceStep(g, s, x))
  {
    hide Is, Any, Line, All, Channels, Sync, Process, Judge, Sound, Decode, Committed, NotCommitted, Fresh;
    RequestDecodes(g.plan, 0, s.toDevice[0]);
    OnlyHelloOpens(g.plan, 0);
    ServeEntry(g, s.mode.cells, x);
    var sent := Process(g.env, Fresh(g.env, s.mode.cells), Request(g.plan, 0), x).sent;
    if h == 0 {
      CurrentAnswered(g.plan, s.toDevice, s.toHost, h, sent);
    } else {
      StaleAnswered(g.plan, s.toDevice, s.toHost, h, sent);
    }
  }

  lemma EntryStepOther(g: Goal, s: System, h: nat, i: nat, x: Faults)
    requires g.Valid() && WellFormed(g, s) && s.host == Waiting(h) && s.mode.Entry? && s.toDevice != []
    requires Invariant(g, s) && 0 < i && Is(g.plan, RequestNo(i), s.toDevice[0])
    ensures Invariant(g, DeviceStep(g, s, x))
  {
    hide Is, Invariant, Process, Decode;
    RequestDecodes(g.plan, i, s.toDevice[0]);
    OnlyHelloOpens(g.plan, i);
    RequestDropped(g, s, DeviceStep(g, s, x), h);
  }

  lemma GoneStep(g: Goal, s: System, h: nat, i: nat, x: Faults)
    requires g.Valid() && WellFormed(g, s) && s.host == Waiting(h) && s.mode.Gone? && s.toDevice != []
    requires Invariant(g, s) && Is(g.plan, RequestNo(i), s.toDevice[0])
    ensures Invariant(g, DeviceStep(g, s, x))
  {
    hide Is, Invariant, Process, Decode;
    RequestDecodes(g.plan, i, s.toDevice[0]);
    assert s.toHost + [] == s.toHost;
    RequestDropped(g, s, DeviceStep(g, s, x), h);
  }

  lemma DeviceStepKeeps(g: Goal, s: System, h: nat, x: Faults)
    requires g.Valid() && WellFormed(g, s) && s.host == Waiting(h) && Invariant(g, s) && s.toDevice != []
    requires Tolerable(g, s, DeviceReceive(x))
    ensures Invariant(g, DeviceStep(g, s, x))
  {
    hide Is, Tolerable, Invariant, DeviceStep;
    var i := HeadIndex(g, s, h);
    if s.mode.Serving? {
      SessionStep(g, s, h, x);
    } else if s.mode.Gone? {
      GoneStep(g, s, h, i, x);
    } else if i == 0 {
      EntryStepHello(g, s, h, x);
    } else {
      EntryStepOther(g, s, h, i, x);
    }
  }

  // ----- After success -----

  lemma DoneDeviceStep(g: Goal, s: System, x: Faults)
    requires g.Valid() && WellFormed(g, s) && s.host == Done && Invariant(g, s) && s.toDevice != []
    ensures Invariant(g, DeviceStep(g, s, x))
  {
    hide Is, Committed, Process, Decode;
    var h := g.plan.Last();
    RequestDecodes(g.plan, h, s.toDevice[0]);
    OnlyHelloOpens(g.plan, h);
    TailWithin(g.plan, RequestNo(h), s.toDevice, s.toDevice[1..]);
  }

  lemma DoneKeeps(g: Goal, s: System, move: Move)
    requires g.Valid() && WellFormed(g, s) && s.host == Done && Invariant(g, s)
    ensures Invariant(g, Next(g, s, move))
  {
    hide Is, All, Committed, Cut, DeviceStep;
    var k, q := RequestNo(g.plan.Last()), s.toDevice;
    if move.DeviceReceive? {
      if q != [] {
        DoneDeviceStep(g, s, move.faults);
      } else {
        EmptyStep(g, s, move.faults);
      }
    } else if move.LoseToDevice? && move.at < |q| {
      CutWithin(g.plan, k, q, move.at, move.at + 1);
    } else if move.DuplicateToDevice? && move.at < |q| {
      CutWithin(g.plan, k, q, move.at + 1, move.at);
    }
  }

  lemma EmptyStep(g: Goal, s: System, x: Faults)
    requires g.Valid() && WellFormed(g, s) && s.toDevice == []
    ensures DeviceStep(g, s, x) == s
  {
    hide Answer;
  }

  lemma DisturbanceKeeps(g: Goal, s: System, h: nat, move: Move)
    requires g.Valid() && WellFormed(g, s) && s.host == Waiting(h) && Invariant(g, s)
    requires move.LoseToDevice? || move.LoseToHost? || move.DuplicateToDevice? || move.DuplicateToHost?
    ensures Invariant(g, Next(g, s, move))
  {
    hide Channels, ModeAgrees, Cut, DeviceStep, HostStep;
    var r, q, p := Next(g, s, move), s.toDevice, s.toHost;
    CutNothing(q);
    CutNothing(p);
    var at := move.at;
    if move.LoseToDevice? && at < |q| {
      QueuesCut(g, s, r, h, at, at + 1, 0, 0);
    } else if move.DuplicateToDevice? && at < |q| {
      QueuesCut(g, s, r, h, at + 1, at, 0, 0);
    } else if move.LoseToHost? && at < |p| {
      QueuesCut(g, s, r, h, 0, 0, at, at + 1);
    } else if move.DuplicateToHost? && at < |p| {
      QueuesCut(g, s, r, h, 0, 0, at + 1, at);
    }
  }

  lemma HostStepKeeps(g: Goal, s: System, h: nat)
    requires g.Valid() && WellFormed(g, s) && s.host == Waiting(h) && Invariant(g, s)
    ensures Invariant(g, HostStep(g, s))
  {
    hide Channels, ModeAgrees, Cut, Judge;
    if s.toHost != [] {
      var verdict := Judge(g.plan, h, s.toHost[0]);
      if verdict == Accepted {
        AcceptKeeps(g, s, h);
      } else if verdict == Ignored {
        CutNothing(s.toDevice);
        CutIsTail(s.toHost);
        QueuesCut(g, s, HostStep(g, s), h, 0, 0, 0, 1);
      } else {
        RejectKeeps(g, s, h);
      }
    }
  }

  lemma RejectKeeps(g: Goal, s: System, h: nat)
    requires g.Valid() && WellFormed(g, s) && s.host == Waiting(h) && Invariant(g, s)
    requires s.toHost != [] && Judge(g.plan, h, s.toHost[0]) == Rejected
    ensures Invariant(g, HostStep(g, s))
  {
    hide Channels, ModeAgrees, Cut, Judge;
    CutNothing(s.toDevice);
    CutIsTail(s.toHost);
    var r := s.(toHost := s.toHost[1..]);
    QueuesCut(g, s, r, h, 0, 0, 0, 1);
    FailedLikeWaiting(g, r, h);
  }

  /** A call that raised leaves the device where it would be if the host had gone on waiting. */
  lemma FailedLikeWaiting(g: Goal, s: System, h: nat)
    requires g.Valid() && h <= g.plan.Last()
    ensures Invariant(g, s.(host := Failed(h))) <==> Invariant(g, s.(host := Waiting(h)))
  {
    hide Channels, Committed, NotCommitted, InStepOrAhead, Sync, Any, All;
  }

  lemma FailedStep(g: Goal, s: System, h: nat, move: Move)
    requires g.Valid() && WellFormed(g, s) && s.host == Failed(h)
    requires !move.Send? && !move.GiveUp? && !move.HostReceive?
    ensures WellFormed(g, s.(host := Waiting(h)))
    ensures Next(g, s, move) == Next(g, s.(host := Waiting(h)), move).(host := Failed(h))
  {
    hide Answer, Remove, Double;
  }

  lemma FailedKeeps(g: Goal, s: System, h: nat, move: Move)
    requires g.Valid() && WellFormed(g, s) && s.host == Failed(h) && Invariant(g, s) && Tolerable(g, s, move)
    ensures Invariant(g, Next(g, s, move))
  {
    hide Invariant, DeviceStep, Admissible;
    if !move.Send? && !move.GiveUp? && !move.HostReceive? {
      var w := s.(host := Waiting(h));
      FailedLikeWaiting(g, s, h);
      FailedStep(g, s, h, move);
      WaitingKeeps(g, w, h, move);
      FailedLikeWaiting(g, Next(g, w, move), h);
    }
  }

  lemma WaitingKeeps(g: Goal, s: System, h: nat, move: Move)
    requires g.Valid() && WellFormed(g, s) && s.host == Waiting(h) && Invariant(g, s) && Tolerable(g, s, move)
    ensures Invariant(g, Next(g, s, move))
  {
    hide Channels, ModeAgrees, DeviceStep, Judged, Tolerable, All, Committed;
    match move
    case Send => SendKeeps(g, s, h);
    case GiveUp => FailedLikeWaiting(g, s, h);
    case HostReceive => HostStepKeeps(g, s, h);
    case DeviceReceive(x) =>
      if s.toDevice == [] {
        EmptyStep(g, s, x);
      } else {
        DeviceStepKeeps(g, s, h, x);
      }
    case DeviceReset => SessionEndKeeps(g, s, Next(g, s, move), h);
    case DeviceLeave => SessionEndKeeps(g, s, Next(g, s, move), h);
    case _ => DisturbanceKeeps(g, s, h, move);
  }

  /** Every step keeps the device in step with the request that the host awaits, or that it awaited when its call
      raised, or exactly one request ahead of it. */
  lemma StepKeeps(g: Goal, s: System, move: Move)
    requires g.Valid() && WellFormed(g, s) && Invariant(g, s) && Tolerable(g, s, move)
    ensures Invariant(g, Next(g, s, move))
  {
    hide Invariant, Next, Tolerable, WellFormed;
    match s.host
    case Failed(h) => FailedKeeps(g, s, h, move);
    case Done => DoneKeeps(g, s, move);
    case Waiting(h) => WaitingKeeps(g, s, h, move);
  }

  lemma {:induction false} ExecutionKeeps(g: Goal, s: System, moves: seq<Move>)
    requires g.Valid() && Initial(g, s) && WellFormed(g, s) && TolerableRun(g, s, moves)
    ensures Invariant(g, Execution(g, s, moves))
    decreases |moves|
  {
    hide Invariant, Tolerable, Next, Initial, WellFormed;
    if moves == [] {
      InitialHolds(g, s);
    } else {
      var before := Execution(g, s, moves[..|moves| - 1]);
      ExecutionKeeps(g, s, moves[..|moves| - 1]);
      StepKeeps(g, before, moves[|moves| - 1]);
    }
  }

  /** Over every interleaving of loss, duplication, retransmission, flash faults, resets and session ends: when
      the host's call returns, the target slot holds the image and is the slot that boots next. */
  lemma SuccessMeansCommitted(g: Goal, s: System, moves: seq<Move>)
    requires g.Valid() && Initial(g, s) && WellFormed(g, s) && TolerableRun(g, s, moves)
    requires Execution(g, s, moves).host == Done
    ensures var cells := Execution(g, s, moves).mode.Flash();
      && |cells| == g.env.layout.flashSize && |g.plan.Image()| <= g.Slot().size
      && cells[g.Slot().offset..g.Slot().offset + |g.plan.Image()|] == g.plan.Image()
      && Selected(g.env.layout, cells) == Some(g.target)
  {
    hide Execution, TolerableRun, Initial, WellFormed, ActiveEntry, ActiveSequence, Selected, CommitSequence, All;
    ExecutionKeeps(g, s, moves);
  }
}
