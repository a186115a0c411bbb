/** What the application service answers to every frame, read off the wire: each status and text by its cause. */
module AppAnswers {
  import opened Bytes
  import opened Crc
  import opened Frames
  import opened Flash
  import opened Device
  import opened HostProtocol
  import opened AppService
  import opened Answers

  function TextFor(env: AppEnv, notice: Notice): seq<byte> {
    if notice == Quiet then [] else env.text(notice)
  }

  ghost predicate AppSays(env: AppEnv, f: Frame, o: AppOutcome, status: u16, notice: Notice) {
    Tells(o.answer, f, status, o.app.expected, o.app.nextOffset, TextFor(env, notice))
  }

  lemma ReplySays(env: AppEnv, a: App, f: Frame, status: u16, notice: Notice)
    requires a.nextOffset <= U32_MAX
    ensures
      Tells(Encode(AppReply(env, a, f, status, notice)), f, status, a.expected, a.nextOffset, TextFor(env, notice))
  {
    hide Encode, Reply, Tells;
    ReplyTells(f.command, f.sequence, f, status, a.expected, a.nextOffset, TextFor(env, notice));
  }

  // ----- Which frames are executed -----

  ghost predicate AppTurnsAway(env: AppEnv, a: App, f: Frame, x: AppFaults, o: AppOutcome, status: u16, notice: Notice)
  {
    && o.app == a && !o.restart && o.executed.None? && o.delivered == (x.send != Lost)
    && AppSays(env, f, o, status, notice)
  }

  predicate StartsOver(f: Frame) {
    f.command == 0x01 && f.sequence == 0
  }

  /** A repetition brings back the cached bytes; a wrong version, a request without a session and one out of turn are
      turned away, in this order; everything else is executed. */
  lemma AppGateExactly(env: AppEnv, a: App, f: Frame, x: AppFaults)
    requires AppSound(env, a)
    ensures var o := AppProcess(env, a, f, x);
      && (AppMatchesLast(a, f) ==> o == AppOutcome(a, a.reply.value, x.send != Lost, false, None))
      && (!AppMatchesLast(a, f) && f.version != 1 ==> AppTurnsAway(env, a, f, x, o, 0x1, WrongVersion))
      && (!AppMatchesLast(a, f) && f.version == 1 && !StartsOver(f) && !a.session ==>
        AppTurnsAway(env, a, f, x, o, 0x6, HelloFirst))
      && (!AppMatchesLast(a, f) && f.version == 1 && !StartsOver(f) && a.session && f.sequence != a.expected ==>
        AppTurnsAway(env, a, f, x, o, 0x3, Notice.WrongSequence))
      && (o.executed.Some? <==>
        && !AppMatchesLast(a, f) && f.version == 1
        && (StartsOver(f) || (a.session && f.sequence == a.expected)))
  {
    hide AppExecuted, AppReply, Crc32, Tells, AppMatchesLast, Encode;
    ReplySays(env, a, f, ERR_VERSION, WrongVersion);
    ReplySays(env, a, f, ERR_STATE, HelloFirst);
    ReplySays(env, a, f, ERR_SEQUENCE, Notice.WrongSequence);
    AppExecutesSome(env, a, f, x);
  }

  lemma AppExecutesSome(env: AppEnv, a: App, f: Frame, x: AppFaults)
    requires AppSound(env, a)
    ensures AppExecuted(env, Admitted(a, f), f, x).executed.Some?
  {
    hide AppExecute, Encode, AppReply;
  }

  // ----- What an executed request answers -----

  /** The request is executed with this status and text. A success moves the sequence and the key of the reply cache,
      caches the reply if it was reported as sent, and asks for a restart only then. */
  ghost predicate Obeys(env: AppEnv, a: App, f: Frame, x: AppFaults, o: AppOutcome, status: u16, notice: Notice,
                        restarts: bool)
  {
    && o.executed == Some(status) && AppSays(env, f, o, status, notice) && o.delivered == (x.send != Lost)
    && o.restart == (restarts && x.send == Confirmed)
    && (if status == 0 then
          && o.app.expected == (a.expected + 1) % 0x1_0000 && o.app.key == Key(f.command, f.sequence, Crc32(f.payload))
          && o.app.reply == (if x.send == Confirmed then Some(o.answer) else a.reply)
        else o.app.expected == a.expected && o.app.key == a.key && o.app.reply == a.reply)
  }

  predicate SameService(a: App, b: App) {
    && a.calls == b.calls && a.cells == b.cells && a.state == b.state && a.handle == b.handle
    && a.imageSize == b.imageSize && a.nextOffset == b.nextOffset && a.digest == b.digest && a.session == b.session
  }

  lemma ConcludeObeys(env: AppEnv, a: App, f: Frame, x: AppFaults, h: AppHandled, restarts: bool)
    requires AppSoundResult(env, a, h.app) && (restarts ==> h.status == OK)
    ensures h.app.nextOffset <= U32_MAX
    ensures var o := AppConclude(env, f, h, restarts, x);
      Obeys(env, a, f, x, o, h.status, h.notice, restarts) && SameService(o.app, h.app) && o.executed == Some(h.status)
  {
    hide AppReply, Crc32, Tells, Encode;
    var o := AppConclude(env, f, h, restarts, x);
    ReplySays(env, h.app, f, h.status, h.notice);
    ReplySays(env, h.app.(expected := Next16(h.app.expected), key := Key(f.command, f.sequence, Crc32(f.payload))),
      f, OK, h.notice);
  }

  ghost predicate IsTaken(a: App, f: Frame) {
    !AppMatchesLast(a, f) && f.version == 1 && !StartsOver(f) && a.session && f.sequence == a.expected
  }

  lemma TakenObeys(env: AppEnv, a: App, f: Frame, x: AppFaults, h: AppHandled, restarts: bool)
    requires AppSound(env, a) && IsTaken(a, f) && (h, restarts) == AppExecute(env, a, f, x)
    ensures var o := AppProcess(env, a, f, x);
      Obeys(env, a, f, x, o, h.status, h.notice, restarts) && SameService(o.app, h.app) && o.executed == Some(h.status)
  {
    hide AppExecute, AppConclude, Obeys, AppReply, Encode, AppMatchesLast, Crc32, Unexecuted;
    AppExecuteSound(env, a, f, x);
    RestartsOnlyOk(env, a, f, x);
    ConcludeObeys(env, a, f, x, h, restarts);
  }

  lemma RestartsOnlyOk(env: AppEnv, a: App, f: Frame, x: AppFaults)
    requires AppSound(env, a)
    ensures AppExecute(env, a, f, x).1 ==> AppExecute(env, a, f, x).0.status == OK
  {
    hide AppBegin, AppWrite;
  }

  // ----- HELLO, INFO, ABORT, BOOT and everything that is no command -----

  /** Closing an update: the handle is aborted exactly if one is open, and nothing is left of the update. */
  predicate Aborted(a: App, b: App) {
    && b.calls == (if a.state == Receiving then a.calls + [OtaAbort(a.handle)] else a.calls)
    && b.state == Idle && b.handle == 0 && b.imageSize == 0 && b.nextOffset == 0
    && b.digest == seq(32, _ => 0) && b.cells == a.cells
  }

  lemma AbortExactly(a: App)
    ensures Aborted(a, AppAbort(a)) && AppAbort(a).session == a.session
  {
  }

  lemma AppHelloAnswers(env: AppEnv, a: App, f: Frame, x: AppFaults)
    requires AppSound(env, a) && !AppMatchesLast(a, f) && f.version == 1 && StartsOver(f)
    ensures var o := AppProcess(env, a, f, x);
      && Obeys(env, a.(expected := 0, reply := None), f, x, o, 0x0, Greeting, false)
      && Aborted(a, o.app) && o.app.session
  {
    hide AppConclude, Obeys, AppReply, Encode, AppMatchesLast, Crc32, Unexecuted;
    var a0 := AppAbort(a).(expected := 0, session := true, reply := None);
    AbortExactly(a);
    assert AppSound(env, a0);
    ConcludeObeys(env, a0, f, x, AppHandled(a0, OK, Greeting), false);
    ObeysAnew(env, a0, a.(expected := 0, reply := None), f, x, AppProcess(env, a, f, x), Greeting, false);
  }

  lemma ObeysAnew(env: AppEnv, a0: App, a: App, f: Frame, x: AppFaults, o: AppOutcome, notice: Notice, restarts: bool)
    requires Obeys(env, a0, f, x, o, 0, notice, restarts) && a0.expected == a.expected && a0.reply == a.reply
    ensures Obeys(env, a, f, x, o, 0, notice, restarts)
  {
    hide Tells;
  }

  lemma AppSimpleAnswers(env: AppEnv, a: App, f: Frame, x: AppFaults)
    requires AppSound(env, a) && IsTaken(a, f) && f.command !in {0x10, 0x11, 0x12}
    ensures var o := AppProcess(env, a, f, x);
      && o.app.session
      && (f.command == 0x01 ==> Obeys(env, a, f, x, o, 0x0, Greeting, false) && SameService(o.app, a))
      && (f.command == 0x02 ==> Obeys(env, a, f, x, o, 0x0, Description, false) && SameService(o.app, a))
      && (f.command in {0x13, 0x20} && f.payload == [] ==>
        Obeys(env, a, f, x, o, 0x0, Quiet, f.command == 0x20) && Aborted(a, o.app))
      && (f.command in {0x13, 0x20} && f.payload != [] ==>
        && Obeys(env, a, f, x, o, 0x4, if f.command == 0x13 then AbortHasPayload else BootHasPayload, false)
        && SameService(o.app, a))
      && (f.command !in {0x01, 0x02, 0x13, 0x20} ==>
        Obeys(env, a, f, x, o, 0x2, UnknownCommand, false) && SameService(o.app, a))
  {
    hide AppProcess, Obeys, AppMatchesLast, AppBegin, AppWrite, AppFinish, AppAbort;
    AbortExactly(a);
    TakenObeys(env, a, f, x, AppExecute(env, a, f, x).0, AppExecute(env, a, f, x).1);
  }

  // ----- BEGIN -----

  predicate BadAnnouncement(f: Frame) {
    |f.payload| < 37 || ReadLe32(f.payload, 0) == 0 || f.payload[36] > 32 || |f.payload| != 37 + f.payload[36]
  }

  /** A well-formed BEGIN always closes an open update first; then it fails for want of a partition or in
      `esp_ota_begin`, or opens the announced one on a new handle. */
  lemma AppBeginAnswers(env: AppEnv, a: App, f: Frame, x: AppFaults)
    requires AppSound(env, a) && IsTaken(a, f) && f.command == 0x10
    ensures var o := AppProcess(env, a, f, x);
      if BadAnnouncement(f) then
        && Obeys(env, a, f, x, o, 0x4, if |f.payload| < 37 then BeginShort else BadBegin, false)
        && SameService(o.app, a)
      else
        var size, closed := ReadLe32(f.payload, 0), if a.state == Receiving then AppAbort(a) else a;
        if env.target.None? || size > env.target.value then
          Obeys(env, a, f, x, o, 0x4, NoPartition, false) && SameService(o.app, closed)
        else if x.begin then
          Obeys(env, a, f, x, o, 0x8, OtaBeginFailed, false) && SameService(o.app, closed)
        else
          && Obeys(env, a, f, x, o, 0x0, Quiet, false)
          && o.app.state == Receiving && o.app.handle == Begun(closed.calls) + 1
          && o.app.calls == closed.calls + [OtaBegin(o.app.handle)] && o.app.imageSize == size
          && o.app.nextOffset == 0 && o.app.digest == f.payload[4..36]
          && |o.app.cells| == |a.cells| && o.app.session
          && forall i :: 0 <= i < |a.cells| ==>
            o.app.cells[i] == if i < (size + 0xFFF) / 0x1000 * 0x1000 then 0xFF else a.cells[i]
  {
    hide AppProcess, Obeys, AppMatchesLast, AppAbort, ReadLe32, Begun;
    AbortExactly(a);
    TakenObeys(env, a, f, x, AppBegin(env, a, f, x), false);
  }

  // ----- DATA -----

  lemma AppDataAnswers(env: AppEnv, a: App, f: Frame, x: AppFaults)
    requires AppSound(env, a) && IsTaken(a, f) && f.command == 0x11
    ensures var o := AppProcess(env, a, f, x);
      if a.state != Receiving then Obeys(env, a, f, x, o, 0x6, NotReceiving, false) && SameService(o.app, a)
      else if |f.payload| <= 4 then Obeys(env, a, f, x, o, 0x4, EmptyData, false) && SameService(o.app, a)
      else if ReadLe32(f.payload, 0) != a.nextOffset then
        Obeys(env, a, f, x, o, 0x7, Notice.WrongOffset, false) && SameService(o.app, a)
      else if a.nextOffset + |f.payload| - 4 > a.imageSize then
        Obeys(env, a, f, x, o, 0x4, TooMuchData, false) && SameService(o.app, a)
      else
        && o.app.calls == a.calls + [OtaWrite(a.handle, f.payload[4..])]
        && if x.write.Some? then
            && Obeys(env, a, f, x, o, 0x8, OtaWriteFailed, false)
            && SameService(o.app, a.(calls := o.app.calls, cells := o.app.cells))
          else
            && Obeys(env, a, f, x, o, 0x0, Quiet, false)
            && SameService(o.app, a.(calls := o.app.calls, nextOffset := a.nextOffset + |f.payload| - 4,
              cells := Program(a.cells, a.nextOffset, f.payload[4..])))
  {
    hide AppProcess, Obeys, AppMatchesLast, Program, Damage, ReadLe32;
    TakenObeys(env, a, f, x, AppWrite(env, a, f, x), false);
  }

  // ----- END -----

  /** A due END always ends the handle. The first check that fails decides the status, and then the service is idle
      and announces offset zero: a valid image, a readable partition, the right hash, a boot partition that can be
      set. */
  lemma AppEndAnswers(env: AppEnv, a: App, f: Frame, x: AppFaults)
    requires AppSound(env, a) && IsTaken(a, f) && f.command == 0x12
    ensures var o := AppProcess(env, a, f, x);
      if f.payload != [] then Obeys(env, a, f, x, o, 0x4, EndHasPayload, false) && SameService(o.app, a)
      else if a.state != Receiving then Obeys(env, a, f, x, o, 0x6, NoUpdateOpen, false) && SameService(o.app, a)
      else if a.nextOffset != a.imageSize then
        Obeys(env, a, f, x, o, 0x4, IncompleteImage, false) && SameService(o.app, a)
      else
        var ended := a.calls + [OtaEnd(a.handle, !x.end)];
        var rejected := a.(calls := ended, handle := 0, state := Idle, nextOffset := 0);
        if x.end then Obeys(env, a, f, x, o, 0x9, ImageRejected, false) && SameService(o.app, rejected)
        else if x.readBack.Some? && x.readBack.value * 1024 < a.imageSize then
          Obeys(env, a, f, x, o, 0x8, ReadBackFailed, false) && SameService(o.app, rejected)
        else if env.sha256(a.cells[..a.imageSize]) != a.digest then
          Obeys(env, a, f, x, o, 0xA, WrongHash, false) && SameService(o.app, rejected)
        else if x.setBoot then
          Obeys(env, a, f, x, o, 0x8, SetBootFailed, false) && SameService(o.app, rejected)
        else
          && Obeys(env, a, f, x, o, 0x0, Quiet, true)
          && SameService(o.app, a.(calls := ended + [OtaSetBoot], handle := 0, state := Finished))
  {
    hide AppProcess, Obeys, AppMatchesLast;
    TakenObeys(env, a, f, x, AppExecute(env, a, f, x).0, AppExecute(env, a, f, x).1);
  }

  // ----- The timeout -----

  /** Ten silent seconds close an open session and its update: the open handle is aborted, nothing is left to be
      announced, and no reply stays cached; without a session nothing happens. */
  lemma TimeoutExactly(a: App)
    ensures !a.session ==> AppTimeout(a) == a
    ensures a.session ==>
      && Aborted(a, AppTimeout(a)) && !AppTimeout(a).session && AppTimeout(a).expected == 0 && AppTimeout(a).reply.None?
  {
    AbortExactly(a);
  }
}
