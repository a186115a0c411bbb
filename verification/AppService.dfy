/** The update service of the running application: the same protocol over the ESP-IDF OTA calls. */
module AppService {
  import opened Bytes
  import opened Crc
  import opened Frames
  import opened Flash
  import opened Device

  /** The OTA calls the service makes, in order; the calls are foreign, their outcomes come from the environment. */
  datatype OtaCall =
    | OtaBegin(handle: nat) | OtaWrite(handle: nat, data: seq<byte>) | OtaEnd(handle: nat, ok: bool)
    | OtaAbort(handle: nat) | OtaSetBoot

  datatype UpdateState = Idle | Receiving | Finished

  datatype Notice =
    | Quiet | Greeting | Description | WrongVersion | HelloFirst | WrongSequence | UnknownCommand
    | BeginShort | BadBegin | NoPartition | OtaBeginFailed | NotReceiving | EmptyData | WrongOffset | TooMuchData
    | OtaWriteFailed | EndHasPayload | NoUpdateOpen | IncompleteImage | ImageRejected | ReadBackFailed | WrongHash
    | SetBootFailed | AbortHasPayload | BootHasPayload

  /** The next update partition, the hash and the texts. */
  datatype AppEnv = AppEnv(target: Option<nat>, sha256: seq<byte> -> seq<byte>, text: Notice -> seq<byte>)

  /** What became of a reply: reported as sent, reported as failed although all of it went out, or not sent. */
  datatype Transmission = Confirmed | Unconfirmed | Lost

  /** Which calls fail while one frame is processed; a read-back fails at one of its 1024-byte pieces. */
  datatype AppFaults = AppFaults(
    begin: bool, write: Option<seq<byte>>, end: bool, readBack: Option<nat>, setBoot: bool, send: Transmission)
  {
    predicate Delivers() {
      send != Lost
    }
  }

  datatype Key = Key(command: byte, sequence: u16, crc: u32)

  /** `iap_service_context_t`, with the contents of the target partition and the calls made so far. */
  datatype App = App(
    calls: seq<OtaCall>,
    cells: seq<byte>,
    state: UpdateState,
    handle: nat,
    imageSize: nat,
    nextOffset: nat,
    digest: seq<byte>,
    expected: u16,
    session: bool,
    key: Key,
    reply: Option<seq<byte>>)

  datatype AppHandled = AppHandled(app: App, status: u16, notice: Notice)

  datatype AppOutcome = AppOutcome(app: App, answer: seq<byte>, delivered: bool, restart: bool, executed: Option<u16>)

  const READ_PIECE: nat := 1024

  function Begun(calls: seq<OtaCall>): nat {
    if calls == [] then 0
    else Begun(calls[..|calls| - 1]) + (if calls[|calls| - 1].OtaBegin? then 1 else 0)
  }

  ghost predicate AppSound(env: AppEnv, a: App) {
    && a.nextOffset <= a.imageSize <= U32_MAX && |a.digest| == DIGEST_SIZE
    && (a.state == Receiving ==> a.imageSize <= |a.cells|)
    && (env.target.Some? ==> env.target.value == |a.cells|)
  }

  // ----- Handlers -----

  /** `abort_update`. */
  function AppAbort(a: App): App {
    a.(
      calls := if a.state == Receiving then a.calls + [OtaAbort(a.handle)] else a.calls,
      state := Idle, handle := 0, imageSize := 0, nextOffset := 0, digest := seq(DIGEST_SIZE, _ => 0))
  }

  function AppBegin(env: AppEnv, a: App, f: Frame, x: AppFaults): AppHandled {
    if |f.payload| < BEGIN_PREFIX then AppHandled(a, ERR_LENGTH, BeginShort)
    else
      var imageSize, versionLength := ReadLe32(f.payload, 0), f.payload[36];
      if imageSize == 0 || versionLength > MAX_VERSION || |f.payload| != BEGIN_PREFIX + versionLength
      then AppHandled(a, ERR_LENGTH, BadBegin)
      else
        var a1 := if a.state == Receiving then AppAbort(a) else a;
        if env.target.None? || imageSize > env.target.value then AppHandled(a1, ERR_LENGTH, NoPartition)
        else if x.begin then AppHandled(a1, ERR_FLASH, OtaBeginFailed)
        else
          var handle := Begun(a1.calls) + 1;
          AppHandled(
            a1.(calls := a1.calls + [OtaBegin(handle)], cells := Erase(a1.cells, 0, Sectors(imageSize)),
                state := Receiving, handle := handle, imageSize := imageSize, nextOffset := 0,
                digest := f.payload[4..36]),
            OK, Quiet)
  }

  function AppWrite(env: AppEnv, a: App, f: Frame, x: AppFaults): AppHandled
    requires a.state == Receiving ==> a.nextOffset <= a.imageSize <= |a.cells|
  {
    if a.state != Receiving then AppHandled(a, ERR_STATE, NotReceiving)
    else if |f.payload| <= OFFSET_SIZE then AppHandled(a, ERR_LENGTH, EmptyData)
    else
      var data := f.payload[OFFSET_SIZE..];
      if ReadLe32(f.payload, 0) != a.nextOffset then AppHandled(a, ERR_OFFSET, WrongOffset)
      else if |data| > a.imageSize - a.nextOffset then AppHandled(a, ERR_LENGTH, TooMuchData)
      else
        var a1 := a.(calls := a.calls + [OtaWrite(a.handle, data)]);
        if x.write.Some?
        then AppHandled(a1.(cells := Damage(a.cells, a.nextOffset, |data|, x.write.value)), ERR_FLASH, OtaWriteFailed)
        else AppHandled(
          a1.(cells := Program(a.cells, a.nextOffset, data), nextOffset := a.nextOffset + |data|), OK, Quiet)
  }

  /** A rejected END closes the update: idle, and the announced offset is zero. */
  function Reject(a: App, status: u16, notice: Notice): AppHandled {
    AppHandled(a.(state := Idle, nextOffset := 0), status, notice)
  }

  function AppFinish(env: AppEnv, a: App, f: Frame, x: AppFaults): AppHandled
    requires a.state == Receiving ==> a.imageSize <= |a.cells|
  {
    if f.payload != [] then AppHandled(a, ERR_LENGTH, EndHasPayload)
    else if a.state != Receiving then AppHandled(a, ERR_STATE, NoUpdateOpen)
    else if a.nextOffset != a.imageSize then AppHandled(a, ERR_LENGTH, IncompleteImage)
    else
      var a1 := a.(calls := a.calls + [OtaEnd(a.handle, !x.end)], handle := 0);
      if x.end then Reject(a1, ERR_IMAGE, ImageRejected)
      else if x.readBack.Some? && x.readBack.value * READ_PIECE < a.imageSize then Reject(a1, ERR_FLASH, ReadBackFailed)
      else if env.sha256(a.cells[..a.imageSize]) != a.digest then Reject(a1, ERR_HASH, WrongHash)
      else if x.setBoot then Reject(a1, ERR_FLASH, SetBootFailed)
      else AppHandled(a1.(calls := a1.calls + [OtaSetBoot], state := Finished), OK, Quiet)
  }

  function AppExecute(env: AppEnv, a: App, f: Frame, x: AppFaults): (AppHandled, bool)
    requires a.state == Receiving ==> a.nextOffset <= a.imageSize <= |a.cells|
  {
    if f.command == HELLO then (AppHandled(a, OK, Greeting), false)
    else if f.command == INFO then (AppHandled(a, OK, Description), false)
    else if f.command == BEGIN then (AppBegin(env, a, f, x), false)
    else if f.command == DATA then (AppWrite(env, a, f, x), false)
    else if f.command == END then
      var h := AppFinish(env, a, f, x);
      (h, h.status == OK)
    else if f.command == ABORT then
      if f.payload != [] then (AppHandled(a, ERR_LENGTH, AbortHasPayload), false)
      else (AppHandled(AppAbort(a), OK, Quiet), false)
    else if f.command == BOOT then
      if f.payload != [] then (AppHandled(a, ERR_LENGTH, BootHasPayload), false)
      else (AppHandled(AppAbort(a), OK, Quiet), true)
    else (AppHandled(a, ERR_COMMAND, UnknownCommand), false)
  }

  // ----- One frame, one timeout -----

  function AppDetail(env: AppEnv, notice: Notice): (s: seq<byte>)
    ensures |s| <= MAX_DETAIL
  {
    var s := if notice == Quiet then [] else env.text(notice);
    if |s| > MAX_DETAIL then s[..MAX_DETAIL] else s
  }

  function AppReply(env: AppEnv, a: App, f: Frame, status: u16, notice: Notice): Frame
    requires a.nextOffset <= U32_MAX
  {
    Reply(f.command, f.sequence, status, a.expected, a.nextOffset, AppDetail(env, notice))
  }

  predicate AppMatchesLast(a: App, f: Frame) {
    a.reply.Some? && a.key == Key(f.command, f.sequence, Crc32(f.payload))
  }

  function Unexecuted(env: AppEnv, a: App, f: Frame, x: AppFaults, status: u16, notice: Notice): AppOutcome
    requires a.nextOffset <= U32_MAX
  {
    AppOutcome(a, Encode(AppReply(env, a, f, status, notice)), x.Delivers(), false, None)
  }

  /** The end of `process_frame`: the key of the cache always moves, the cached bytes only if they were reported as
      sent. */
  function AppConclude(env: AppEnv, f: Frame, h: AppHandled, restart: bool, x: AppFaults): AppOutcome
    requires h.app.nextOffset <= U32_MAX
  {
    if h.status != OK then
      AppOutcome(h.app, Encode(AppReply(env, h.app, f, h.status, h.notice)), x.Delivers(), false, Some(h.status))
    else
      var a := h.app.(expected := Next16(h.app.expected), key := Key(f.command, f.sequence, Crc32(f.payload)));
      var answer := Encode(AppReply(env, a, f, OK, h.notice));
      var sent := x.send == Confirmed;
      AppOutcome(if sent then a.(reply := Some(answer)) else a, answer, x.Delivers(), restart && sent, Some(OK))
  }

  /** The state in which an admitted request is executed. */
  function Admitted(a: App, f: Frame): App {
    if f.command == HELLO && f.sequence == 0 then AppAbort(a).(expected := 0, session := true, reply := None) else a
  }

  function AppExecuted(env: AppEnv, a: App, f: Frame, x: AppFaults): AppOutcome
    requires a.nextOffset <= a.imageSize <= U32_MAX && (a.state == Receiving ==> a.imageSize <= |a.cells|)
  {
    var (h, restart) := AppExecute(env, a, f, x);
    AppExecuteBounded(env, a, f, x);
    AppConclude(env, f, h, restart, x)
  }

  function AppProcess(env: AppEnv, a: App, f: Frame, x: AppFaults): AppOutcome
    requires a.nextOffset <= a.imageSize <= U32_MAX && (a.state == Receiving ==> a.imageSize <= |a.cells|)
  {
    if AppMatchesLast(a, f) then AppOutcome(a, a.reply.value, x.Delivers(), false, None)
    else if f.version != PROTOCOL_VERSION then Unexecuted(env, a, f, x, ERR_VERSION, WrongVersion)
    else if !(f.command == HELLO && f.sequence == 0) && !a.session then Unexecuted(env, a, f, x, ERR_STATE, HelloFirst)
    else if !(f.command == HELLO && f.sequence == 0) && f.sequence != a.expected then
      Unexecuted(env, a, f, x, ERR_SEQUENCE, WrongSequence)
    else AppExecuted(env, Admitted(a, f), f, x)
  }

  /** The session timeout of `iap_service_task`. */
  function AppTimeout(a: App): App {
    if a.session then AppAbort(a).(expected := 0, session := false, reply := None) else a
  }

  lemma AppExecuteBounded(env: AppEnv, a: App, f: Frame, x: AppFaults)
    requires a.nextOffset <= a.imageSize <= U32_MAX && (a.state == Receiving ==> a.imageSize <= |a.cells|)
    ensures var b := AppExecute(env, a, f, x).0.app; b.nextOffset <= b.imageSize <= U32_MAX
  {
  }

  /** A handler keeps the service sound and leaves the sequence, the session and the cache alone. */
  ghost predicate AppSoundResult(env: AppEnv, a: App, b: App) {
    AppSound(env, b) && b.expected == a.expected && b.key == a.key && b.reply == a.reply && b.session == a.session
  }

  lemma AppBeginSound(env: AppEnv, a: App, f: Frame, x: AppFaults)
    requires AppSound(env, a)
    ensures AppSoundResult(env, a, AppBegin(env, a, f, x).app)
  {
    hide Begun;
  }

  lemma AppWriteSound(env: AppEnv, a: App, f: Frame, x: AppFaults)
    requires AppSound(env, a)
    ensures AppSoundResult(env, a, AppWrite(env, a, f, x).app)
  {
  }

  lemma AppFinishSound(env: AppEnv, a: App, f: Frame, x: AppFaults)
    requires AppSound(env, a)
    ensures AppSoundResult(env, a, AppFinish(env, a, f, x).app)
  {
  }

  lemma AppExecuteSound(env: AppEnv, a: App, f: Frame, x: AppFaults)
    requires AppSound(env, a)
    ensures AppSound(env, AppExecute(env, a, f, x).0.app)
    ensures var b := AppExecute(env, a, f, x).0.app;
      b.expected == a.expected && b.key == a.key && b.reply == a.reply && b.session == a.session
  {
    AppBeginSound(env, a, f, x);
    AppWriteSound(env, a, f, x);
    AppFinishSound(env, a, f, x);
  }

  lemma AppProcessSound(env: AppEnv, a: App, f: Frame, x: AppFaults)
    requires AppSound(env, a)
    ensures AppSound(env, AppProcess(env, a, f, x).app) && AppSound(env, AppTimeout(a))
  {
    hide AppExecute, Encode, AppReply, Crc32;
    AppExecuteSound(env, Admitted(a, f), f, x);
  }
}
