/** What one request of a plan does to the application service, in step with the host or not. */
module AppInStep {
  import opened Bytes
  import opened Crc
  import opened Frames
  import opened Flash
  import opened Device
  import opened ReplyCache
  import opened HostProtocol
  import opened Messages
  import opened InStep
  import opened AppService
  import opened AppDiscipline

  predicate BootsNewImage(a: App) {
    a.calls != [] && a.calls[|a.calls| - 1] == OtaSetBoot
  }

  /** The boot partition was set last of all, and what the target starts with has the announced hash. */
  predicate AppCommitted(p: Plan, v: AppEnv, a: App) {
    && BootsNewImage(a)
    && |p.Image()| <= |a.cells| && v.sha256(a.cells[..|p.Image()|]) == p.digest
  }

  predicate AppHoldsImage(p: Plan, a: App) {
    |p.Image()| <= |a.cells| && a.cells[..|p.Image()|] == p.Image()
  }

  /** An update that is open was opened by the plan's BEGIN; while failed writes clear no bit that the data keep
      (`kept`), what was accepted is the image so far. */
  ghost predicate Ours(p: Plan, a: App, kept: bool)
    requires p.Valid()
  {
    a.state == Receiving ==>
      && a.imageSize == |p.Image()| <= |a.cells| && a.digest == p.digest && a.nextOffset <= a.imageSize
      && (kept ==> Covers(a.cells, 0, p.Image(), a.nextOffset))
  }

  /** A failed OTA write clears no bit that the data keep. */
  ghost predicate AppNorFailure(a: App, f: Frame, status: u16, cells: seq<byte>) {
    f.command == DATA && status == ERR_FLASH && |f.payload| > OFFSET_SIZE ==>
      NorCells(a.cells, cells, a.nextOffset, f.payload[OFFSET_SIZE..])
  }

  // ----- The handlers -----

  lemma BeginKeeps(p: Plan, v: AppEnv, a: App, x: AppFaults, kept: bool)
    requires p.Valid() && AppSound(v, a) && Ours(p, a, kept)
    ensures var r := AppBegin(v, a, Request(p, p.infos + 1), x);
      && AppSoundResult(v, a, r.app) && Ours(p, r.app, kept)
      && (r.status == OK ==> r.app.nextOffset == 0 && r.app.state == Receiving)
  {
    hide Begun, Erase, Covers, Sectors;
    var f := Request(p, p.infos + 1);
    AppBeginSound(v, a, f, x);
    BeginFields(|p.Image()|, p.digest, p.version);
    var r := AppBegin(v, a, f, x);
    if r.status == OK {
      CoversErased(r.app.cells, 0, p.Image());
    }
  }

  lemma DataKeeps(p: Plan, v: AppEnv, a: App, j: nat, x: AppFaults, kept: bool, r: AppHandled)
    requires p.Valid() && j < |p.chunks| && AppSound(v, a) && Ours(p, a, kept)
    requires r == AppWrite(v, a, Request(p, p.infos + 2 + j), x)
    requires kept ==> AppNorFailure(a, Request(p, p.infos + 2 + j), r.status, r.app.cells)
    ensures AppSoundResult(v, a, r.app) && Ours(p, r.app, kept) && r.app.state == a.state
    ensures r.status == OK ==>
      a.state == Receiving && a.nextOffset == p.Offset(j) && r.app.nextOffset == p.Offset(j + 1)
    ensures r.status != OK ==> r.app.nextOffset == a.nextOffset
  {
    hide Program, Damage, Flatten, EncodeBegin, Covers, NorCells;
    var f := Request(p, p.infos + 2 + j);
    AppWriteSound(v, a, f, x);
    OffsetBound(p, j);
    DataFields(p.Offset(j), p.chunks[j]);
    if a.state == Receiving && a.nextOffset == p.Offset(j) && kept {
      WriteCovers(p, a.cells, j, r.app.cells, x);
    }
  }

  /** The flash under one chunk, written or not. */
  lemma WriteCovers(p: Plan, cells: seq<byte>, j: nat, after: seq<byte>, x: AppFaults)
    requires p.Valid() && j < |p.chunks| && p.Offset(j) <= |p.Image()| <= |cells|
    requires Covers(cells, 0, p.Image(), p.Offset(j))
    ensures p.Offset(j + 1) <= |p.Image()|
    ensures after == Program(cells, p.Offset(j), p.chunks[j]) ==> Covers(after, 0, p.Image(), p.Offset(j + 1))
    ensures (x.write.Some? && after == Damage(cells, p.Offset(j), |p.chunks[j]|, x.write.value)
        && NorCells(cells, after, p.Offset(j), p.chunks[j])) ==> Covers(after, 0, p.Image(), p.Offset(j))
  {
    hide Program, Damage, Flatten, Covers, NorCells;
    OffsetBound(p, j);
    var n, data := p.Offset(j), p.chunks[j];
    CoversProgram(cells, 0, p.Image(), n, data, data);
    if x.write.Some? && after == Damage(cells, n, |data|, x.write.value) && NorCells(cells, after, n, data) {
      CoversFailure(cells, after, 0, p.Image(), n, data, data);
    }
  }

  lemma CoversAll(cells: seq<byte>, image: seq<byte>)
    requires |image| <= |cells| && Covers(cells, 0, image, |image|)
    ensures cells[..|image|] == image
  {
    hide And;
    assert forall i :: 0 <= i < |image| ==> cells[..|image|][i] == cells[0 + i] == image[i];
  }

  lemma EndKeeps(p: Plan, v: AppEnv, a: App, x: AppFaults, kept: bool)
    requires p.Valid() && AppSound(v, a) && Ours(p, a, kept)
    ensures var r := AppFinish(v, a, Request(p, p.Last()), x);
      && AppSoundResult(v, a, r.app) && Ours(p, r.app, kept)
      && (r.status == OK ==>
        && AppCommitted(p, v, r.app) && (kept ==> AppHoldsImage(p, r.app))
        && a.state == Receiving && r.app.state == Finished && r.app.nextOffset == |p.Image()|)
  {
    hide Flatten, Covers;
    AppFinishSound(v, a, Request(p, p.Last()), x);
    if kept && a.state == Receiving && a.nextOffset == a.imageSize {
      CoversAll(a.cells, p.Image());
    }
  }

  // ----- Any request of the plan, whatever the service has seen before -----

  /** What a handler leaves of an update of the plan. */
  ghost predicate HandledOurs(p: Plan, v: AppEnv, a: App, f: Frame, r: AppHandled, kept: bool)
    requires p.Valid()
  {
    && AppSoundResult(v, a, r.app) && Ours(p, r.app, kept)
    && (f.command == END && r.status == OK ==>
      AppCommitted(p, v, r.app) && r.app.state == Finished && (kept ==> AppHoldsImage(p, r.app)))
  }

  lemma ExecuteKeeps(p: Plan, v: AppEnv, a: App, i: nat, x: AppFaults, kept: bool)
    requires p.Valid() && i <= p.Last() && AppSound(v, a) && Ours(p, a, kept)
    requires var r := AppExecute(v, a, Request(p, i), x).0; kept ==>
      AppNorFailure(a, Request(p, i), r.status, r.app.cells)
    ensures HandledOurs(p, v, a, Request(p, i), AppExecute(v, a, Request(p, i), x).0, kept)
    ensures AppExecute(v, a, Request(p, i), x).1 ==> i == p.Last() && AppExecute(v, a, Request(p, i), x).0.status == OK
  {
    hide AppBegin, AppWrite, AppFinish, PayloadAt, Ours, AppNorFailure;
    if i == p.infos + 1 {
      BeginKeeps(p, v, a, x, kept);
    } else if i == p.Last() {
      EndKeeps(p, v, a, x, kept);
    } else if i > p.infos + 1 {
      DataKeeps(p, v, a, i - p.infos - 2, x, kept, AppWrite(v, a, Request(p, i), x));
    }
  }

  /** A service no request of this plan has reached yet. */
  ghost predicate Start(v: AppEnv, a: App) {
    AppSound(v, a) && GreetingCached(a)
  }

  // ----- One message -----

  /** No reply of the service, sent or cached, is the acceptance of the plan's END before END was executed. */
  ghost predicate Engaged(p: Plan, v: AppEnv, a: App, kept: bool)
    requires p.Valid()
  {
    AppSound(v, a) && Ours(p, a, kept) && (a.reply.Some? ==> !Is(p, AcceptanceOf(p.Last()), a.reply.value))
  }

  /** The plan is committed, and no update is open any more. */
  ghost predicate Final(p: Plan, v: AppEnv, a: App, kept: bool)
    requires p.Valid()
  {
    AppSound(v, a) && AppCommitted(p, v, a) && a.state != Receiving && (kept ==> AppHoldsImage(p, a))
  }

  lemma RequestShape(p: Plan, i: nat)
    requires p.Valid() && i <= p.Last()
    ensures var f := Request(p, i);
      && f.sequence == i % U16_MODULUS && f.version == PROTOCOL_VERSION
      && (f.command == HELLO <==> i == 0) && (f.command == END <==> i == p.Last())
      && f.command in {HELLO, INFO, BEGIN, DATA, END} && f.command == CommandAt(p, i)
  {
    hide PayloadAt;
  }

  /** Only an OK reply to END is the acceptance of END. */
  lemma OnlyEndIsAccepted(p: Plan, i: nat, status: u16, expected: u16, nextOffset: u32, detail: seq<byte>)
    requires p.Valid() && i <= p.Last() && |detail| <= MAX_DETAIL && (i < p.Last() || status != OK)
    ensures var f := Request(p, i);
      !Is(p, AcceptanceOf(p.Last()), Encode(Reply(f.command, f.sequence, status, expected, nextOffset, detail)))
  {
    hide Decode, Encode, Request, DecodeResponse;
    var f := Request(p, i);
    RequestShape(p, i);
    RequestShape(p, p.Last());
    if i == p.Last() {
      AnswerJudged(p, i, status, expected, nextOffset, detail);
    } else {
      ReplyDecodes(f.command, f.sequence, status, expected, nextOffset, detail);
    }
  }

  ghost predicate Served(p: Plan, v: AppEnv, i: nat, o: AppOutcome, kept: bool)
    requires p.Valid()
  {
    if i == p.Last() && o.executed == Some(OK) then Final(p, v, o.app, kept)
    else Engaged(p, v, o.app, kept) && !o.restart && !Is(p, AcceptanceOf(p.Last()), o.answer)
  }

  ghost predicate ToleratedBy(a: App, f: Frame, o: AppOutcome) {
    o.executed == Some(ERR_FLASH) ==> AppNorFailure(a, f, ERR_FLASH, o.app.cells)
  }

  lemma ConcludeServed(p: Plan, v: AppEnv, a: App, i: nat, x: AppFaults, kept: bool, r: AppHandled, restart: bool)
    requires p.Valid() && i <= p.Last() && Engaged(p, v, a, kept) && HandledOurs(p, v, a, Request(p, i), r, kept)
    requires restart ==> i == p.Last() && r.status == OK
    ensures r.app.nextOffset <= U32_MAX && Served(p, v, i, AppConclude(v, Request(p, i), r, restart, x), kept)
  {
    hide Decode, Encode, Request, Reply, Is, Crc32, Covers;
    RequestShape(p, i);
    var o := AppConclude(v, Request(p, i), r, restart, x);
    if i < p.Last() || r.status != OK {
      OnlyEndIsAccepted(p, i, r.status, o.app.expected, o.app.nextOffset, AppDetail(v, r.notice));
    }
  }

  lemma UnexecutedServed(p: Plan, v: AppEnv, a: App, i: nat, x: AppFaults, kept: bool, status: u16, notice: Notice)
    requires p.Valid() && i <= p.Last() && Engaged(p, v, a, kept) && status != OK && a.nextOffset <= U32_MAX
    ensures Served(p, v, i, Unexecuted(v, a, Request(p, i), x, status, notice), kept)
  {
    hide Decode, Encode, Request, Reply, Is, Ours;
    OnlyEndIsAccepted(p, i, status, a.expected, a.nextOffset, AppDetail(v, notice));
  }

  lemma AdmittedEngaged(p: Plan, v: AppEnv, a: App, f: Frame, kept: bool)
    requires p.Valid() && AppSound(v, a)
    ensures f.command == HELLO && f.sequence == 0 ==> Engaged(p, v, Admitted(a, f), kept)
    ensures Engaged(p, v, a, kept) ==> Engaged(p, v, Admitted(a, f), kept)
  {
    hide Is, Covers;
  }

  lemma ServeExecuted(p: Plan, v: AppEnv, a: App, i: nat, x: AppFaults, kept: bool)
    requires p.Valid() && i <= p.Last() && AppSound(v, a) && (i == 0 || Engaged(p, v, a, kept))
    requires kept ==> ToleratedBy(a, Request(p, i), AppExecuted(v, Admitted(a, Request(p, i)), Request(p, i), x))
    ensures Served(p, v, i, AppExecuted(v, Admitted(a, Request(p, i)), Request(p, i), x), kept)
  {
    hide Is, NorCells, AppConclude, AppExecute, Request, Ours, HandledOurs, Final;
    var f := Request(p, i);
    var a0 := Admitted(a, f);
    RequestShape(p, i);
    AdmittedEngaged(p, v, a, f, kept);
    var (r, restart) := AppExecute(v, a0, f, x);
    AppExecuteBounded(v, a0, f, x);
    ExecutedStatus(v, f, r, restart, x);
    ToleranceMoves(a, a0, f, r.status, r.app.cells);
    ExecuteKeeps(p, v, a0, i, x, kept);
    ConcludeServed(p, v, a0, i, x, kept, r, restart);
  }

  lemma ExecutedStatus(v: AppEnv, f: Frame, r: AppHandled, restart: bool, x: AppFaults)
    requires r.app.nextOffset <= U32_MAX
    ensures var o := AppConclude(v, f, r, restart, x); o.executed == Some(r.status) && o.app.cells == r.app.cells
  {
    hide Encode, Crc32;
  }

  lemma ToleranceMoves(a: App, a0: App, f: Frame, status: u16, cells: seq<byte>)
    requires a0 == Admitted(a, f)
    ensures AppNorFailure(a, f, status, cells) <==> AppNorFailure(a0, f, status, cells)
  {
    hide NorCells;
  }

  /** The first HELLO, in whatever state earlier sessions left the service. */
  lemma ServeFirst(p: Plan, v: AppEnv, a: App, x: AppFaults, kept: bool)
    requires p.Valid() && Start(v, a)
    requires kept ==> ToleratedBy(a, Request(p, 0), AppProcess(v, a, Request(p, 0), x))
    ensures Served(p, v, 0, AppProcess(v, a, Request(p, 0), x), kept)
  {
    hide Encode, Request, AppExecuted, IsOkReply, Is, Ours, Crc32;
    RequestShape(p, 0);
    if AppMatchesLast(a, Request(p, 0)) {
      GreetingIsNotEnd(p, a.reply.value);
      IdleIsOurs(p, a, kept);
    } else {
      ServeExecuted(p, v, a, 0, x, kept);
    }
  }

  lemma IdleIsOurs(p: Plan, a: App, kept: bool)
    requires p.Valid()
    ensures a.state != Receiving ==> Ours(p, a, kept)
  {
  }

  lemma GreetingIsNotEnd(p: Plan, m: seq<byte>)
    requires p.Valid() && IsOkReply(m, HELLO, 0, 1)
    ensures !Is(p, AcceptanceOf(p.Last()), m)
  {
    hide Decode, DecodeResponse, PayloadAt;
  }

  /** Any request of the plan, repeated, late or out of turn. */
  lemma ServeAny(p: Plan, v: AppEnv, a: App, i: nat, x: AppFaults, kept: bool)
    requires p.Valid() && i <= p.Last() && Engaged(p, v, a, kept)
    requires kept ==> ToleratedBy(a, Request(p, i), AppProcess(v, a, Request(p, i), x))
    ensures Served(p, v, i, AppProcess(v, a, Request(p, i), x), kept)
  {
    hide Unexecuted, Request, Is, AppExecute, AppConclude, Ours, AppNorFailure, Final, Crc32;
    var f := Request(p, i);
    RequestShape(p, i);
    if AppMatchesLast(a, f) {
    } else if f.command != HELLO && !a.session {
      UnexecutedServed(p, v, a, i, x, kept, ERR_STATE, HelloFirst);
    } else if f.command != HELLO && f.sequence != a.expected {
      UnexecutedServed(p, v, a, i, x, kept, ERR_SEQUENCE, Notice.WrongSequence);
    } else {
      ServeExecuted(p, v, a, i, x, kept);
    }
  }

  /** After the commit, nothing but the reply cache can still move at an END. */
  lemma ServeFinal(p: Plan, v: AppEnv, a: App, x: AppFaults, kept: bool)
    requires p.Valid() && Final(p, v, a, kept)
    ensures var o := AppProcess(v, a, Request(p, p.Last()), x);
      Final(p, v, o.app, kept) && !o.restart && o.executed != Some(OK)
  {
    hide Encode, Reply, Crc32, Request, AppExecute;
    RequestShape(p, p.Last());
    EndFindsNothing(v, a, Request(p, p.Last()), x);
  }

  lemma EndFindsNothing(v: AppEnv, a: App, f: Frame, x: AppFaults)
    requires AppSound(v, a) && a.state != Receiving && f.command == END
    ensures var (r, restart) := AppExecute(v, a, f, x); r.app == a && r.status != OK && !restart
  {
  }

  // ----- In step with the host -----

  function KeyOf(f: Frame): Key {
    Key(f.command, f.sequence, Crc32(f.payload))
  }

  /** The first `j` chunks of the image have been written. */
  ghost predicate AppOpen(p: Plan, a: App, j: nat)
    requires p.Valid() && j <= |p.chunks|
  {
    a.state == Receiving && Ours(p, a, true) && a.nextOffset == p.Offset(j)
  }

  ghost predicate AppPhase(p: Plan, a: App, k: nat)
    requires p.Valid() && k <= p.Last()
  {
    if k > p.infos + 1 then AppOpen(p, a, k - p.infos - 2) else Ours(p, a, true)
  }

  /** The service has executed requests 0 to `k - 1`; whether their last reply is cached is another matter. */
  ghost predicate AppSync(p: Plan, v: AppEnv, a: App, k: nat)
    requires p.Valid() && 0 < k <= p.Last()
  {
    && AppSound(v, a) && a.session && a.expected == k % U16_MODULUS
    && a.key == KeyOf(Request(p, k - 1)) && AppPhase(p, a, k)
  }

  /** The reply to request `i`, and what became of it. */
  ghost predicate Replied(p: Plan, i: nat, o: AppOutcome, x: AppFaults)
    requires p.Valid()
  {
    && Is(p, ReplyNo(i), o.answer) && o.delivered == x.Delivers()
    && (o.executed == Some(OK) ==> Is(p, AcceptanceOf(i), o.answer))
  }

  lemma ConcludeReplied(p: Plan, v: AppEnv, a: App, k: nat, r: AppHandled, restart: bool, x: AppFaults)
    requires p.Valid() && k <= p.Last() && a.expected == k % U16_MODULUS && AppSoundResult(v, a, r.app)
    requires r.status == OK && k > p.infos ==> r.app.nextOffset == OffsetAfter(p, k)
    ensures r.app.nextOffset <= U32_MAX
    ensures var o := AppConclude(v, Request(p, k), r, restart, x);
      && Replied(p, k, o, x) && o.executed == Some(r.status)
      && (r.status != OK ==> o.app == r.app && !Is(p, AcceptanceOf(k), o.answer))
      && (r.status == OK ==>
        && o.app == r.app.(expected := (k + 1) % U16_MODULUS, key := KeyOf(Request(p, k)), reply := o.app.reply)
        && o.app.reply == (if x.send == Confirmed then Some(o.answer) else r.app.reply))
  {
    hide Decode, Encode, Judge, Reply, Request, OffsetAfter, Crc32;
    RequestShape(p, k);
    NextIndex(k);
    var o := AppConclude(v, Request(p, k), r, restart, x);
    AnswerJudged(p, k, r.status, o.app.expected, o.app.nextOffset, AppDetail(v, r.notice));
  }

  /** After the first HELLO: in step with the next request; the reply is cached if it was reported as sent. */
  ghost predicate Greeted(p: Plan, v: AppEnv, o: AppOutcome, x: AppFaults)
    requires p.Valid()
  {
    && AppSync(p, v, o.app, 1) && Is(p, AcceptanceOf(0), o.answer) && !o.restart && o.delivered == x.Delivers()
    && (o.app.reply == Some(o.answer) || (o.app.reply.None? && x.send != Confirmed))
  }

  /** The first HELLO, from whatever an earlier session left. */
  lemma ServeHello(p: Plan, v: AppEnv, a: App, x: AppFaults)
    requires p.Valid() && Start(v, a)
    ensures Greeted(p, v, AppProcess(v, a, Request(p, 0), x), x)
  {
    hide Decode, Encode, Judge, Reply, Crc32, AppConclude, AppAbort, Is, Ours, IsOkReply;
    var f := Request(p, 0);
    if AppMatchesLast(a, f) {
      GreetingIsAccepted(p, a.reply.value);
      IdleIsOurs(p, a, true);
    } else {
      var a0 := AppAbort(a).(expected := 0, session := true, reply := None);
      AbortSound(v, a);
      IdleIsOurs(p, a0, true);
      ConcludeReplied(p, v, a0, 0, AppHandled(a0, OK, Greeting), false, x);
      var o := AppConclude(v, f, AppHandled(a0, OK, Greeting), false, x);
      HelloConcludes(v, f, a0, x);
      OursMoves(p, a0, o.app, true);
    }
  }

  lemma HelloConcludes(v: AppEnv, f: Frame, a: App, x: AppFaults)
    requires a.nextOffset <= U32_MAX
    ensures !AppConclude(v, f, AppHandled(a, OK, Greeting), false, x).restart
  {
    hide Encode;
  }

  lemma AbortSound(v: AppEnv, a: App)
    requires AppSound(v, a)
    ensures AppSound(v, AppAbort(a).(expected := 0, session := true, reply := None)) && AppAbort(a).state == Idle
  {
  }

  lemma OursMoves(p: Plan, a: App, b: App, kept: bool)
    requires p.Valid() && b.state == a.state && b.imageSize == a.imageSize && b.digest == a.digest
    requires b.nextOffset == a.nextOffset && b.cells == a.cells
    ensures Ours(p, a, kept) <==> Ours(p, b, kept)
  {
    hide Covers;
  }

  lemma GreetingIsAccepted(p: Plan, m: seq<byte>)
    requires p.Valid() && IsOkReply(m, HELLO, 0, 1)
    ensures Is(p, AcceptanceOf(0), m)
  {
    hide Decode;
  }

  /** Request `k` on a service in step: accepted, it is one step further, and the reply is cached if it was reported
      as sent; otherwise it is still in step and nothing was cached. */
  ghost predicate Stepped(p: Plan, v: AppEnv, a: App, k: nat, o: AppOutcome, x: AppFaults)
    requires p.Valid() && 0 < k < p.Last()
  {
    && Replied(p, k, o, x) && !o.restart && (o.executed == Some(OK) <==> Is(p, AcceptanceOf(k), o.answer))
    && (if o.executed == Some(OK)
        then AppSync(p, v, o.app, k + 1) && o.app.reply == (if x.send == Confirmed then Some(o.answer) else a.reply)
        else AppSync(p, v, o.app, k) && o.app.reply == a.reply)
  }

  lemma NextIsExecuted(p: Plan, v: AppEnv, a: App, k: nat, x: AppFaults)
    requires p.Valid() && 0 < k <= p.Last() && AppSync(p, v, a, k)
    ensures AppProcess(v, a, Request(p, k), x) == AppExecuted(v, a, Request(p, k), x)
    ensures Admitted(a, Request(p, k)) == a
  {
    hide Request, AppPhase, Crc32, Encode, AppExecuted, Unexecuted;
    RequestShape(p, k);
    RequestShape(p, k - 1);
    NextIndex(k - 1);
  }

  /** What a handler does to the update, seen from the plan. */
  ghost predicate Moved(p: Plan, v: AppEnv, a: App, k: nat, r: AppHandled)
    requires p.Valid() && 0 < k < p.Last()
  {
    && AppSoundResult(v, a, r.app)
    && (if r.status == OK then AppPhase(p, r.app, k + 1) && (k > p.infos ==> r.app.nextOffset == OffsetAfter(p, k))
        else AppPhase(p, r.app, k))
  }

  lemma ExecuteMoves(p: Plan, v: AppEnv, a: App, k: nat, x: AppFaults, r: AppHandled)
    requires p.Valid() && 0 < k < p.Last() && AppSound(v, a) && AppPhase(p, a, k)
    requires r == AppExecute(v, a, Request(p, k), x).0 && AppNorFailure(a, Request(p, k), r.status, r.app.cells)
    ensures Moved(p, v, a, k, r) && !AppExecute(v, a, Request(p, k), x).1
  {
    hide AppBegin, AppWrite, AppFinish, Ours, PayloadAt, AppNorFailure;
    if k == p.infos + 1 {
      BeginKeeps(p, v, a, x, true);
      assert p.chunks[..0] == [];
    } else if k > p.infos + 1 {
      DataKeeps(p, v, a, k - p.infos - 2, x, true, r);
    }
  }

  lemma ConcludeSteps(p: Plan, v: AppEnv, a: App, k: nat, x: AppFaults, r: AppHandled)
    requires p.Valid() && 0 < k < p.Last() && AppSync(p, v, a, k) && Moved(p, v, a, k, r)
    ensures r.app.nextOffset <= U32_MAX
    ensures Stepped(p, v, a, k, AppConclude(v, Request(p, k), r, false, x), x)
  {
    hide Ours, Is, Encode, AppReply, Request, OffsetAfter, Crc32;
    ConcludeReplied(p, v, a, k, r, false, x);
    OursMoves(p, r.app, AppConclude(v, Request(p, k), r, false, x).app, true);
  }

  /** One request of the plan on a service that is in step with it, whatever OTA call fails. */
  lemma ServeNext(p: Plan, v: AppEnv, a: App, k: nat, x: AppFaults)
    requires p.Valid() && 0 < k < p.Last() && AppSync(p, v, a, k)
    requires ToleratedBy(a, Request(p, k), AppProcess(v, a, Request(p, k), x))
    ensures Stepped(p, v, a, k, AppProcess(v, a, Request(p, k), x), x)
  {
    hide AppExecute, AppConclude, AppProcess, Request, Stepped, Moved, NorCells, AppPhase;
    NextIsExecuted(p, v, a, k, x);
    AppExecuteBounded(v, a, Request(p, k), x);
    var (r, restart) := AppExecute(v, a, Request(p, k), x);
    ExecutedStatus(v, Request(p, k), r, restart, x);
    ExecuteMoves(p, v, a, k, x, r);
    ConcludeSteps(p, v, a, k, x, r);
  }

  /** END on a service in step: executed with success, it is accepted and the image is committed; otherwise the update
      is closed and the reply is not accepted. */
  ghost predicate Ended(p: Plan, v: AppEnv, o: AppOutcome, x: AppFaults)
    requires p.Valid()
  {
    && Replied(p, p.Last(), o, x)
    && (if o.executed == Some(OK)
        then AppCommitted(p, v, o.app) && AppHoldsImage(p, o.app) && o.restart == (x.send == Confirmed)
        else o.app.state == Idle && !o.restart && !Is(p, AcceptanceOf(p.Last()), o.answer))
  }

  lemma ServeEnd(p: Plan, v: AppEnv, a: App, x: AppFaults)
    requires p.Valid() && AppSync(p, v, a, p.Last())
    ensures Ended(p, v, AppProcess(v, a, Request(p, p.Last()), x), x)
  {
    hide AppProcess, AppFinish, Ours, Crc32, Is, Encode, Request, AppReply;
    var k, f := p.Last(), Request(p, p.Last());
    OffsetBound(p, |p.chunks|);
    RequestShape(p, k);
    NextIsExecuted(p, v, a, k, x);
    EndKeeps(p, v, a, x, true);
    EndCloses(p, v, a, x);
    var r := AppFinish(v, a, f, x);
    ConcludeReplied(p, v, a, k, r, r.status == OK, x);
  }

  /** A due END leaves no update open, whatever comes of it. */
  lemma EndCloses(p: Plan, v: AppEnv, a: App, x: AppFaults)
    requires p.Valid() && AppSound(v, a) && AppOpen(p, a, |p.chunks|)
    ensures var r := AppFinish(v, a, Request(p, p.Last()), x); r.status != OK ==> r.app.state == Idle
  {
    hide Covers, Flatten;
    OffsetBound(p, |p.chunks|);
  }
}
