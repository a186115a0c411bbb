/** The application service and the bootloader answer the host alike, up to the END request. */
module Agreement {
  import opened Bytes
  import opened Crc
  import opened Frames
  import opened Flash
  import opened OtaData
  import opened Device
  import opened ReplyCache
  import opened HostProtocol
  import opened InStep
  import opened EndToEnd
  import opened Completion
  import opened AppService
  import opened AppDiscipline

  /** The status, the expected sequence and the next offset that a reply announces. */
  function Announced(bytes: seq<byte>): Option<(u16, u16, u32)> {
    match Decode(bytes)
    case Err(_) => None
    case Ok(r) =>
      match DecodeResponse(r.payload)
      case Err(_) => None
      case Ok(x) => Some((x.status, x.expected, x.nextOffset))
  }

  predicate SameAnswer(a: seq<byte>, b: seq<byte>) {
    Announced(a).Some? && Announced(a) == Announced(b)
  }

  lemma ReplyAnnounces(command: byte, sequence: u16, status: u16, expected: u16, nextOffset: u32, detail: seq<byte>)
    requires |detail| <= MAX_DETAIL
    ensures Announced(Encode(Reply(command, sequence, status, expected, nextOffset, detail)))
      == Some((status, expected, nextOffset))
  {
    hide Decode, Encode, DecodeResponse, ReplyPayload;
    ReplyDecodes(command, sequence, status, expected, nextOffset, detail);
    ResponseFields(status, expected, nextOffset, detail);
  }

  /** Both sessions are open and at the same point: same sequence, same update, same cached request. */
  ghost predicate SameUpdateState(env: Env, v: AppEnv, d: Device, a: App) {
    && Sound(env, d) && AppSound(v, a) && !env.encrypted
    && d.target.Some? && v.target == Some(TargetSlot(env, d).size)
    && a.state != Finished && (d.active <==> a.state == Receiving)
    && d.expected == a.expected && d.nextOffset == a.nextOffset && d.imageSize == a.imageSize
  }

  predicate SameCache(d: Device, a: App) {
    match d.cache
    case None => a.reply.None?
    case Some(c) => a.reply.Some? && a.key == Key(c.command, c.sequence, c.crc) && SameAnswer(c.reply, a.reply.value)
  }

  ghost predicate Related(env: Env, v: AppEnv, d: Device, a: App) {
    SameUpdateState(env, v, d, a) && SameCache(d, a) && a.session
  }

  /** A BEGIN that both implementations read as well-formed. */
  predicate ReadableBegin(f: Frame) {
    && |f.payload| >= BEGIN_PREFIX && ReadLe32(f.payload, 0) != 0
    && f.payload[36] <= MAX_VERSION && |f.payload| == BEGIN_PREFIX + f.payload[36]
  }

  /** A DATA request that is current and fits the open update. */
  predicate CurrentData(d: Device, f: Frame) {
    && d.active && |f.payload| > OFFSET_SIZE && ReadLe32(f.payload, 0) == d.nextOffset
    && d.nextOffset + |f.payload| - OFFSET_SIZE <= d.imageSize
  }

  /** Requests that both handle alike. They part on an END that is due, on a BEGIN too large for the slot while an
      update is open or too large for the rounded erase, on DATA that only the 4-byte rule rejects, and on a HELLO
      with a later sequence, which the application takes as a plain request. */
  ghost predicate Common(env: Env, d: Device, f: Frame)
    requires Sound(env, d) && d.target.Some?
  {
    if f.command == HELLO then f.sequence == 0
    else if f.command == BEGIN then
      ReadableBegin(f) && (d.active || ReadLe32(f.payload, 0) <= TargetSlot(env, d).size) ==>
        ReadLe32(f.payload, 0) <= U32_MAX - 0xFFF && Sectors(ReadLe32(f.payload, 0)) <= TargetSlot(env, d).size
    else if f.command == DATA then
      CurrentData(d, f) ==>
        (|f.payload| - OFFSET_SIZE) % 4 == 0 || d.nextOffset + |f.payload| - OFFSET_SIZE == d.imageSize
    else
      f.command == END ==> f.payload != [] || !d.active || d.nextOffset != d.imageSize
  }

  /** Requests that are answered without being executed, and those that both handle alike. */
  ghost predicate Alike(env: Env, d: Device, f: Frame)
    requires Sound(env, d) && d.target.Some?
  {
    || MatchesLast(d, f) || f.version != PROTOCOL_VERSION
    || (f.sequence != d.expected && !(f.command == HELLO && f.sequence == 0))
    || Common(env, d, f)
  }

  // ----- One request -----

  ghost predicate SameHandled(env: Env, v: AppEnv, h: Handled, r: AppHandled) {
    SameUpdateState(env, v, h.device, r.app) && h.status == r.status
  }

  lemma BeginAgrees(env: Env, v: AppEnv, d: Device, a: App, f: Frame)
    requires SameUpdateState(env, v, d, a) && f.command == BEGIN && Common(env, d, f)
    ensures SameHandled(env, v, BeginUpdate(env, d, f, NO_FAULTS), AppBegin(v, a, f, NO_APP_FAULTS))
  {
    BeginSound(env, d, f, NO_FAULTS);
    AppExecuteSound(v, a, f, NO_APP_FAULTS);
  }

  lemma DataAgrees(env: Env, v: AppEnv, d: Device, a: App, f: Frame)
    requires SameUpdateState(env, v, d, a) && f.command == DATA && Common(env, d, f)
    ensures SameHandled(env, v, WriteUpdate(env, d, f, NO_FAULTS), AppWrite(v, a, f, NO_APP_FAULTS))
  {
    WriteSound(env, d, f, NO_FAULTS);
    AppExecuteSound(v, a, f, NO_APP_FAULTS);
  }

  lemma EndAgrees(env: Env, v: AppEnv, d: Device, a: App, f: Frame)
    requires SameUpdateState(env, v, d, a) && f.command == END && Common(env, d, f)
    ensures SameHandled(env, v, FinishUpdate(env, d, f, NO_FAULTS), AppFinish(v, a, f, NO_APP_FAULTS))
  {
  }

  lemma AbortAgrees(env: Env, v: AppEnv, d: Device, a: App)
    requires SameUpdateState(env, v, d, a)
    ensures SameUpdateState(env, v, d.Abandon(), AppAbort(a))
  {
    hide Layout.WellFormed;
  }

  lemma ExecuteAgrees(env: Env, v: AppEnv, d: Device, a: App, f: Frame)
    requires SameUpdateState(env, v, d, a) && Common(env, d, f)
    ensures SameHandled(env, v, Execute(env, d, f, NO_FAULTS).0, AppExecute(v, a, f, NO_APP_FAULTS).0)
  {
    hide SameUpdateState, BeginUpdate, WriteUpdate, FinishUpdate, AppBegin, AppWrite, AppFinish, AppAbort, Sound;
    AbortAgrees(env, v, d, a);
    if f.command == BEGIN {
      BeginAgrees(env, v, d, a, f);
    } else if f.command == DATA {
      DataAgrees(env, v, d, a, f);
    } else if f.command == END {
      EndAgrees(env, v, d, a, f);
    }
  }

  lemma ConcludeAgrees(env: Env, v: AppEnv, d: Device, a: App, f: Frame, h: Handled, r: AppHandled,
                       action: Action, restart: bool)
    requires SameHandled(env, v, h, r) && h.device.cache == d.cache && r.app.key == a.key && r.app.reply == a.reply
    requires SameCache(d, a)
    ensures var o := Conclude(env, f, h, action); var p := AppConclude(v, f, r, restart, NO_APP_FAULTS);
      && o.executed == p.executed && SameAnswer(o.sent, p.answer) && SameCache(o.device, p.app)
      && SameUpdateState(env, v, o.device, p.app) && p.app.session == r.app.session
  {
    hide Encode, Reply, Crc32, Announced, Layout.WellFormed;
    var d1, a1 := h.device, r.app;
    if h.status == OK {
      var e := Next16(d1.expected);
      ReplyAnnounces(f.command, f.sequence, OK, e, d1.nextOffset, Detail(env, h.message));
      ReplyAnnounces(f.command, f.sequence, OK, e, d1.nextOffset, AppDetail(v, r.notice));
    } else {
      ReplyAnnounces(f.command, f.sequence, h.status, d1.expected, d1.nextOffset, Detail(env, h.message));
      ReplyAnnounces(f.command, f.sequence, h.status, d1.expected, d1.nextOffset, AppDetail(v, r.notice));
    }
  }

  lemma RejectionsAgree(env: Env, v: AppEnv, d: Device, a: App, f: Frame, status: u16, message: Message, notice: Notice)
    requires SameUpdateState(env, v, d, a)
    ensures SameAnswer(SendResponse(env, d, f, status, message), Encode(AppReply(v, a, f, status, notice)))
  {
    hide Encode, Reply, Announced, Layout.WellFormed;
    ReplyAnnounces(f.command, f.sequence, status, d.expected, d.nextOffset, Detail(env, message));
    ReplyAnnounces(f.command, f.sequence, status, a.expected, a.nextOffset, AppDetail(v, notice));
  }

  /** Both are sound on the request and announce the same thing, and they stay at the same point. */
  ghost predicate Agrees(env: Env, v: AppEnv, o: Outcome, p: AppOutcome) {
    Related(env, v, o.device, p.app) && SameAnswer(o.sent, p.answer) && o.executed == p.executed
  }

  lemma ExecutedAgrees(env: Env, v: AppEnv, d: Device, a: App, f: Frame)
    requires SameUpdateState(env, v, d, a) && SameCache(d, a) && a.session && Common(env, d, f)
    ensures Agrees(env, v, Executed(env, d, f, NO_FAULTS), AppExecuted(v, a, f, NO_APP_FAULTS))
  {
    hide Execute, AppExecute, Crc32, SameAnswer, Encode, Layout.WellFormed, Conclude, AppConclude, SameCache;
    ExecuteAgrees(env, v, d, a, f);
    ExecuteSound(env, d, f, NO_FAULTS);
    AppExecuteSound(v, a, f, NO_APP_FAULTS);
    var (h, action) := Execute(env, d, f, NO_FAULTS);
    var (r, restart) := AppExecute(v, a, f, NO_APP_FAULTS);
    ConcludeAgrees(env, v, d, a, f, h, r, action, restart);
  }

  lemma AlikeAgrees(env: Env, v: AppEnv, d: Device, a: App, f: Frame)
    requires Related(env, v, d, a) && Alike(env, d, f)
    ensures Agrees(env, v, Process(env, d, f, NO_FAULTS), AppProcess(v, a, f, NO_APP_FAULTS))
  {
    hide Execute, AppExecute, Crc32, SameAnswer, Executed, AppExecuted, Encode, SendResponse, AppReply,
      Layout.WellFormed, Common;
    ProcessSound(env, d, f, NO_FAULTS);
    AppProcessSound(v, a, f, NO_APP_FAULTS);
    if MatchesLast(d, f) {
    } else if f.version != PROTOCOL_VERSION {
      RejectionsAgree(env, v, d, a, f, ERR_VERSION, UnsupportedVersion, WrongVersion);
    } else if f.command == HELLO {
      HelloIsZeroOrStale(env, d, f);
      if f.sequence == 0 {
        HelloAgrees(env, v, d, a, f);
      } else {
        RejectionsAgree(env, v, d, a, f, ERR_SEQUENCE, HelloSequenceNotZero, Notice.WrongSequence);
      }
    } else if f.sequence != d.expected {
      RejectionsAgree(env, v, d, a, f, ERR_SEQUENCE, UnexpectedSequence, Notice.WrongSequence);
    } else {
      ExecutedAgrees(env, v, d, a, f);
    }
  }

  lemma HelloIsZeroOrStale(env: Env, d: Device, f: Frame)
    requires Sound(env, d) && d.target.Some? && Alike(env, d, f)
    requires !MatchesLast(d, f) && f.version == PROTOCOL_VERSION && f.command == HELLO
    ensures f.sequence == 0 || f.sequence != d.expected
  {
    hide Sound;
  }

  lemma HelloAgrees(env: Env, v: AppEnv, d: Device, a: App, f: Frame)
    requires SameUpdateState(env, v, d, a) && !MatchesLast(d, f) && !AppMatchesLast(a, f)
    requires f.version == PROTOCOL_VERSION && f.command == HELLO && f.sequence == 0
    ensures Agrees(env, v, Process(env, d, f, NO_FAULTS), AppProcess(v, a, f, NO_APP_FAULTS))
  {
    hide Execute, AppExecute, Crc32, SameAnswer, Conclude, AppConclude, Encode, Layout.WellFormed;
    AbortAgrees(env, v, d, a);
    var d0 := d.Abandon().(expected := 0, cache := None);
    var a0 := AppAbort(a).(expected := 0, session := true, reply := None);
    ExecutedAgrees(env, v, d0, a0, f);
  }

  // ----- Where they part -----

  /** The handlers' results already show it: another status, or an update open on one side only. */
  ghost predicate Parted(h: Handled, r: AppHandled) {
    h.status != r.status || !(h.device.active <==> r.app.state == Receiving) || r.app.state == Finished
  }

  lemma PartedStays(env: Env, v: AppEnv, f: Frame, h: Handled, r: AppHandled, action: Action, restart: bool)
    requires h.device.nextOffset <= U32_MAX && r.app.nextOffset <= U32_MAX && Parted(h, r)
    ensures !Agrees(env, v, Conclude(env, f, h, action), AppConclude(v, f, r, restart, NO_APP_FAULTS))
  {
    hide SendResponse, AppReply, Crc32, Encode, Sound, AppSound, SameCache, SameAnswer;
  }

  /** The only DATA requests on which they part are those that the 4-byte rule rejects. */
  lemma DataParts(env: Env, v: AppEnv, d: Device, a: App, f: Frame)
    requires SameUpdateState(env, v, d, a) && f.command == DATA && !Common(env, d, f)
    ensures WriteUpdate(env, d, f, NO_FAULTS).status == ERR_LENGTH && AppWrite(v, a, f, NO_APP_FAULTS).status == OK
  {
    hide Layout.WellFormed, Program;
  }

  lemma BeginParts(env: Env, v: AppEnv, d: Device, a: App, f: Frame)
    requires SameUpdateState(env, v, d, a) && f.command == BEGIN && !Common(env, d, f)
    ensures Parted(BeginUpdate(env, d, f, NO_FAULTS), AppBegin(v, a, f, NO_APP_FAULTS))
  {
    hide Layout.WellFormed;
  }

  lemma EndParts(env: Env, v: AppEnv, d: Device, a: App, f: Frame)
    requires SameUpdateState(env, v, d, a) && f.command == END && !Common(env, d, f)
    ensures Parted(FinishUpdate(env, d, f, NO_FAULTS), AppFinish(v, a, f, NO_APP_FAULTS))
  {
    hide Layout.WellFormed, Commit;
  }

  lemma ExecuteParts(env: Env, v: AppEnv, d: Device, a: App, f: Frame)
    requires SameUpdateState(env, v, d, a) && f.command != HELLO && !Common(env, d, f)
    ensures Parted(Execute(env, d, f, NO_FAULTS).0, AppExecute(v, a, f, NO_APP_FAULTS).0)
  {
    hide SameUpdateState, BeginUpdate, WriteUpdate, FinishUpdate, AppBegin, AppWrite, AppFinish, Sound, ReadableBegin,
      CurrentData;
    if f.command == BEGIN {
      BeginParts(env, v, d, a, f);
    } else if f.command == DATA {
      DataParts(env, v, d, a, f);
    } else if f.command == END {
      EndParts(env, v, d, a, f);
    }
  }

  lemma HelloParts(env: Env, v: AppEnv, d: Device, a: App, f: Frame)
    requires Related(env, v, d, a) && f.command == HELLO && !Alike(env, d, f)
    ensures !Agrees(env, v, Process(env, d, f, NO_FAULTS), AppProcess(v, a, f, NO_APP_FAULTS))
  {
    hide SendResponse, AppReply, Crc32, Encode, Sound, AppSound, SameAnswer, AppBegin, AppWrite, AppFinish, AppAbort;
  }

  lemma ExecutedParts(env: Env, v: AppEnv, d: Device, a: App, f: Frame)
    requires SameUpdateState(env, v, d, a) && f.command != HELLO && !Common(env, d, f)
    ensures !Agrees(env, v, Executed(env, d, f, NO_FAULTS), AppExecuted(v, a, f, NO_APP_FAULTS))
  {
    hide Execute, AppExecute, Conclude, AppConclude, Common, Agrees, Parted, Layout.WellFormed;
    ExecuteParts(env, v, d, a, f);
    ExecuteSound(env, d, f, NO_FAULTS);
    AppExecuteSound(v, a, f, NO_APP_FAULTS);
    var (h, action) := Execute(env, d, f, NO_FAULTS);
    var (r, restart) := AppExecute(v, a, f, NO_APP_FAULTS);
    PartedStays(env, v, f, h, r, action, restart);
  }

  lemma UnlikeParts(env: Env, v: AppEnv, d: Device, a: App, f: Frame)
    requires Related(env, v, d, a) && !Alike(env, d, f)
    ensures !Agrees(env, v, Process(env, d, f, NO_FAULTS), AppProcess(v, a, f, NO_APP_FAULTS))
  {
    hide Executed, AppExecuted, Common, Agrees, SendResponse, AppReply, Crc32, Encode, Layout.WellFormed, SameAnswer;
    if f.command == HELLO {
      HelloParts(env, v, d, a, f);
    } else {
      ExecutedParts(env, v, d, a, f);
    }
  }

  /** One request without faults, exactly: the two announce the same status, sequence and offset and stay at the
      same point if and only if the request is not one of those on which they part. */
  lemma StepAgrees(env: Env, v: AppEnv, d: Device, a: App, f: Frame)
    requires Related(env, v, d, a)
    ensures Agrees(env, v, Process(env, d, f, NO_FAULTS), AppProcess(v, a, f, NO_APP_FAULTS)) <==> Alike(env, d, f)
  {
    hide Process, AppProcess, Agrees, Alike;
    if Alike(env, d, f) {
      AlikeAgrees(env, v, d, a, f);
    } else {
      UnlikeParts(env, v, d, a, f);
    }
  }

  /** A due END on the same image, with the same digest and verifier: the bootloader accepts nothing the application
      rejects, and the application accepts what the bootloader rejects exactly when the hash is right and either the
      verified image is not as long as announced, which the application does not check, or no otadata sequence is
      left. */
  lemma DueEndExactly(env: Env, v: AppEnv, d: Device, a: App, f: Frame, x: AppFaults)
    requires SameUpdateState(env, v, d, a) && f.command == END && f.payload == []
    requires d.active && d.nextOffset == d.imageSize && d.digest == a.digest && env.sha256 == v.sha256
    requires Slice(d.cells, TargetSlot(env, d).offset, TargetSlot(env, d).size) == a.cells
    requires x == NO_APP_FAULTS.(end := env.imageLength(a.cells).None?)
    ensures var boot, app := FinishUpdate(env, d, f, NO_FAULTS).status, AppFinish(v, a, f, x).status;
      && (boot == OK ==> app == OK)
      && (app == OK && boot != OK <==>
        && v.sha256(a.cells[..a.imageSize]) == a.digest
        && env.imageLength(a.cells).Some?
        && (env.imageLength(a.cells).value != a.imageSize
          || CommitSequence(env.layout, d.cells, d.target.value) > U32_MAX))
  {
    hide NextEntry, CommitSequence, ActiveSequence, Program, Erase, NewEntry;
    var slot := TargetSlot(env, d);
    assert Slice(d.cells, slot.offset, d.imageSize) == a.cells[..a.imageSize];
  }

  /** The alignment rule is a real difference: the application accepts what the bootloader rejects. */
  lemma UnalignedDataDiverges(env: Env, v: AppEnv, d: Device, a: App, f: Frame)
    requires Related(env, v, d, a) && !MatchesLast(d, f) && f.version == PROTOCOL_VERSION && f.command == DATA
    requires f.sequence == d.expected && d.active && |f.payload| > OFFSET_SIZE && ReadLe32(f.payload, 0) == d.nextOffset
    requires d.nextOffset + |f.payload| - OFFSET_SIZE < d.imageSize && (|f.payload| - OFFSET_SIZE) % 4 != 0
    ensures Process(env, d, f, NO_FAULTS).executed == Some(ERR_LENGTH)
    ensures AppProcess(v, a, f, NO_APP_FAULTS).executed == Some(OK)
  {
    hide Crc32, SameAnswer, Encode, SendResponse, AppReply, Layout.WellFormed, Program;
  }

  // ----- Whole request sequences -----

  ghost function BootAnswers(env: Env, d: Device, frames: seq<Frame>): (answers: seq<seq<byte>>)
    requires Sound(env, d)
    ensures |answers| == |frames|
    decreases |frames|
  {
    if frames == [] then []
    else
      var o := Process(env, d, frames[0], NO_FAULTS);
      ProcessSound(env, d, frames[0], NO_FAULTS);
      [o.sent] + BootAnswers(env, o.device, frames[1..])
  }

  ghost function AppAnswers(v: AppEnv, a: App, frames: seq<Frame>): (answers: seq<seq<byte>>)
    requires AppSound(v, a)
    ensures |answers| == |frames|
    decreases |frames|
  {
    if frames == [] then []
    else
      var p := AppProcess(v, a, frames[0], NO_APP_FAULTS);
      AppProcessSound(v, a, frames[0], NO_APP_FAULTS);
      [p.answer] + AppAnswers(v, p.app, frames[1..])
  }

  ghost predicate CommonRun(env: Env, d: Device, frames: seq<Frame>)
    requires Sound(env, d)
    decreases |frames|
  {
    frames == [] ||
    var o := Process(env, d, frames[0], NO_FAULTS);
    ProcessSound(env, d, frames[0], NO_FAULTS);
    && d.target.Some? && Alike(env, d, frames[0])
    && CommonRun(env, o.device, frames[1..])
  }

  ghost predicate AnsweredAlike(env: Env, v: AppEnv, d: Device, a: App, frames: seq<Frame>)
    requires Sound(env, d) && AppSound(v, a)
  {
    forall i :: 0 <= i < |frames| ==> SameAnswer(BootAnswers(env, d, frames)[i], AppAnswers(v, a, frames)[i])
  }

  /** Over every sequence of such requests the two announce the same status, sequence and offset at every step. */
  lemma {:induction false} AnswersAgree(env: Env, v: AppEnv, d: Device, a: App, frames: seq<Frame>)
    requires Related(env, v, d, a) && CommonRun(env, d, frames)
    ensures AnsweredAlike(env, v, d, a, frames)
    decreases |frames|
  {
    hide Process, AppProcess, SameAnswer, Alike;
    if frames != [] {
      StepAgrees(env, v, d, a, frames[0]);
      var o, p := Process(env, d, frames[0], NO_FAULTS), AppProcess(v, a, frames[0], NO_APP_FAULTS);
      AnswersAgree(env, v, o.device, p.app, frames[1..]);
      var boot, app := BootAnswers(env, o.device, frames[1..]), AppAnswers(v, p.app, frames[1..]);
      forall i | 0 <= i < |frames| ensures SameAnswer(([o.sent] + boot)[i], ([p.answer] + app)[i]) {
        assert i > 0 ==> SameAnswer(boot[i - 1], app[i - 1]);
      }
    }
  }

  // ----- The sequences the host emits -----

  /** How many moves send a new request; the others send the last one again. */
  function New(moves: seq<bool>): nat {
    if moves == [] then 0 else (if moves[0] then 1 else 0) + New(moves[1..])
  }

  /** The host's requests from number `k` on: each is new, or a retransmission of the one before. */
  function HostFrames(p: Plan, k: nat, moves: seq<bool>): (frames: seq<Frame>)
    requires p.Valid() && 0 < k && k + New(moves) <= p.Last()
    ensures |frames| == |moves|
    decreases |moves|
  {
    if moves == [] then []
    else if moves[0] then [Request(p, k)] + HostFrames(p, k + 1, moves[1..])
    else [Request(p, k - 1)] + HostFrames(p, k, moves[1..])
  }

  /** Every new request is sent, the last one included. */
  lemma {:induction false} HostFramesReach(p: Plan, k: nat, moves: seq<bool>, i: nat)
    requires p.Valid() && 0 < k && k + New(moves) <= p.Last() && k <= i < k + New(moves)
    ensures Request(p, i) in HostFrames(p, k, moves)
    decreases |moves|
  {
    hide Request;
    if moves[0] && i > k {
      HostFramesReach(p, k + 1, moves[1..], i);
    } else if !moves[0] {
      HostFramesReach(p, k, moves[1..], i);
    }
  }

  lemma HostRequestIsCommon(g: Goal, d: Device, k: nat)
    requires g.Valid() && Conforming(g) && 0 < k < g.plan.Last() && Sync(g, d, k)
    ensures Sound(g.env, d) && d.target.Some? && Common(g.env, d, Request(g.plan, k))
  {
    hide Judge, MatchesLast, NotCommitted, Covers;
    var f := Request(g.plan, k);
    if k == g.plan.infos + 1 {
      BeginFields(|g.plan.Image()|, g.plan.digest, g.plan.version);
    } else if k > g.plan.infos {
      HostDataIsCommon(g, d, k);
    }
  }

  lemma HostDataIsCommon(g: Goal, d: Device, k: nat)
    requires g.Valid() && Conforming(g) && g.plan.infos + 1 < k < g.plan.Last() && Sound(g.env, d)
    requires d.target == Some(g.target) && Open(g, d, k - g.plan.infos - 2)
    ensures Common(g.env, d, Request(g.plan, k))
  {
    hide Covers, Sound, Request, Conforming, Common, ReadLe32, Flatten, EncodeBegin, Layout.WellFormed;
    var j := k - g.plan.infos - 2;
    DataRequest(g.plan, k);
    OffsetBound(g.plan, j);
    OffsetBound(g.plan, j + 1);
    OnlyLastChunkIsOdd(g, j);
    DataIsCommon(g.env, d, Request(g.plan, k), g.plan.chunks[j]);
  }

  lemma DataIsCommon(env: Env, d: Device, f: Frame, data: seq<byte>)
    requires Sound(env, d) && d.target.Some? && f.command == DATA
    requires |f.payload| > OFFSET_SIZE && f.payload[OFFSET_SIZE..] == data
    requires |data| % 4 == 0 || d.nextOffset + |data| == d.imageSize
    ensures Common(env, d, f)
  {
    hide Sound;
  }

  lemma {:induction false} HostRunIsCommon(g: Goal, d: Device, k: nat, moves: seq<bool>)
    requires g.Valid() && Conforming(g) && 0 < k && k + New(moves) <= g.plan.Last() && Sync(g, d, k)
    ensures Sound(g.env, d) && CommonRun(g.env, d, HostFrames(g.plan, k, moves))
    decreases |moves|
  {
    hide Process, Conforming, Request, Judge, Phase, NotCommitted, Common, Admissible, Layout.WellFormed;
    if moves == [] {
    } else if moves[0] {
      HostRequestIsCommon(g, d, k);
      CleanStep(g, d, k);
      HostRunIsCommon(g, Process(g.env, d, Request(g.plan, k), NO_FAULTS).device, k + 1, moves[1..]);
    } else {
      ServeRepeated(g, d, k, NO_FAULTS);
      HostRunIsCommon(g, d, k, moves[1..]);
    }
  }

  /** From the first HELLO of two fresh sessions to the last DATA, with any number of retransmissions: the same
      answers. */
  lemma HostIsAnsweredAlike(g: Goal, v: AppEnv, d: Device, a: App, moves: seq<bool>, o: Outcome, p: AppOutcome)
    requires g.Valid() && Conforming(g) && 1 + New(moves) <= g.plan.Last()
    requires NotCommitted(g, d.cells) && d == Fresh(g.env, d.cells) && Sound(g.env, d)
    requires AppSound(v, a) && v.target == Some(g.Slot().size) && a.reply.None? && a.state != Finished
    requires o == Process(g.env, d, Request(g.plan, 0), NO_FAULTS)
    requires p == AppProcess(v, a, Request(g.plan, 0), NO_APP_FAULTS)
    ensures SameAnswer(o.sent, p.answer) && Sound(g.env, o.device) && AppSound(v, p.app)
    ensures AnsweredAlike(g.env, v, o.device, p.app, HostFrames(g.plan, 1, moves))
  {
    hide Process, AppProcess, Conforming, Request, Judge, NotCommitted, Phase, SameAnswer, Fresh, AnsweredAlike,
      CommonRun;
    FirstHelloAgrees(g, v, d.cells, a, Request(g.plan, 0));
    ServeEntry(g, d.cells, NO_FAULTS);
    HostRunIsCommon(g, o.device, 1, moves);
    AnswersAgree(g.env, v, o.device, p.app, HostFrames(g.plan, 1, moves));
  }

  lemma FirstHelloAgrees(g: Goal, v: AppEnv, cells: seq<byte>, a: App, f: Frame)
    requires g.Valid() && Conforming(g) && NotCommitted(g, cells) && f == Request(g.plan, 0)
    requires AppSound(v, a) && v.target == Some(g.Slot().size) && a.reply.None? && a.state != Finished
    ensures var d := Fresh(g.env, cells);
      Sound(g.env, d) && Agrees(g.env, v, Process(g.env, d, f, NO_FAULTS), AppProcess(v, a, f, NO_APP_FAULTS))
  {
    assert g.env.layout.otaInfo + 2 * SECTOR <= |cells|;
    var d := Fresh(g.env, cells);
    FreshSound(g.env, cells);
    var idle := AppAbort(a).(expected := 0, reply := None);
    HelloAgrees(g.env, v, d, idle, f);
    HelloForgets(v, a, f);
  }

  lemma HelloForgets(v: AppEnv, a: App, f: Frame)
    requires AppSound(v, a) && a.reply.None? && f.version == PROTOCOL_VERSION && f.command == HELLO && f.sequence == 0
    ensures AppSound(v, AppAbort(a))
    ensures AppProcess(v, AppAbort(a).(expected := 0, reply := None), f, NO_APP_FAULTS)
      == AppProcess(v, a, f, NO_APP_FAULTS)
  {
    hide AppExecute, Encode, AppReply, Crc32;
  }
}
