/** Updates that meet no faults complete, and the one way in which success and failure are not symmetric. */
module Completion {
  import opened Bytes
  import opened Frames
  import opened Flash
  import opened OtaData
  import opened Device
  import opened ReplyCache
  import opened UpdateSafety
  import opened HostProtocol
  import opened InStep
  import opened Messages
  import opened EndToEnd

  const NO_FAULTS: Faults := Faults(None, None, false, false, Healthy)

  /** Every chunk but the last is a whole number of words. */
  ghost predicate WordSized(p: Plan) {
    forall j :: 0 <= j < |p.chunks| - 1 ==> |p.chunks[j]| % 4 == 0
  }

  /** What the device checks on the way: the image fits, the hash is the announced one, the verifier recognises the
      image by its own bytes, and the otadata sequence has not run out. */
  ghost predicate ConformingDevice(g: Goal)
    requires g.Valid()
  {
    && !g.env.encrypted
    && Sectors(|g.plan.Image()|) <= g.Slot().size
    && |g.plan.Image()| <= U32_MAX - 0xFFF
    && g.env.sha256(g.plan.Image()) == g.plan.digest
    && (forall s :: |s| == g.Slot().size && s[..|g.plan.Image()|] == g.plan.Image() ==>
      g.env.imageLength(s) == Some(|g.plan.Image()|))
    && (g.before.Some? ==> NextSequence(g.target + 1, g.before.value, |g.env.layout.slots|) <= U32_MAX)
  }

  ghost predicate Conforming(g: Goal)
    requires g.Valid()
  {
    ConformingDevice(g) && WordSized(g.plan)
  }

  // ----- Each request is accepted -----

  lemma BeginSucceeds(g: Goal, d: Device, f: Frame)
    requires g.Valid() && Conforming(g) && Sound(g.env, d) && d.target == Some(g.target)
    requires f == Request(g.plan, g.plan.infos + 1)
    ensures BeginUpdate(g.env, d, f, NO_FAULTS).status == OK
  {
    BeginFields(|g.plan.Image()|, g.plan.digest, g.plan.version);
  }

  lemma DataSucceeds(g: Goal, d: Device, k: nat, f: Frame)
    requires g.Valid() && Conforming(g) && Sound(g.env, d) && d.target == Some(g.target)
    requires g.plan.infos + 1 < k < g.plan.Last() && f == Request(g.plan, k) && Open(g, d, k - g.plan.infos - 2)
    ensures WriteUpdate(g.env, d, f, NO_FAULTS).status == OK
  {
    hide Covers, Sound, Request, And, Conforming, WriteUpdate;
    DataRequest(g.plan, k);
    var j := k - g.plan.infos - 2;
    OffsetBound(g.plan, j);
    OffsetBound(g.plan, j + 1);
    OnlyLastChunkIsOdd(g, j);
    WriteSucceeds(g.env, d, f, g.plan.chunks[j]);
  }

  lemma WriteSucceeds(env: Env, d: Device, f: Frame, data: seq<byte>)
    requires Sound(env, d) && d.active && |f.payload| > OFFSET_SIZE && f.payload[OFFSET_SIZE..] == data
    requires ReadLe32(f.payload, 0) == d.nextOffset && d.nextOffset + |data| <= d.imageSize
    requires |data| % 4 == 0 || d.nextOffset + |data| == d.imageSize
    ensures WriteUpdate(env, d, f, NO_FAULTS).status == OK
  {
  }

  lemma OnlyLastChunkIsOdd(g: Goal, j: nat)
    requires g.Valid() && Conforming(g) && j < |g.plan.chunks|
    ensures j + 1 == |g.plan.chunks| || |g.plan.chunks[j]| % 4 == 0
  {
  }

  lemma VerifierAgrees(g: Goal, cells: seq<byte>)
    requires g.Valid() && Conforming(g) && |cells| == g.env.layout.flashSize && |g.plan.Image()| <= g.Slot().size
    requires Covers(cells, g.Slot().offset, g.plan.Image(), |g.plan.Image()|)
    ensures g.env.sha256(Slice(cells, g.Slot().offset, |g.plan.Image()|)) == g.plan.digest
    ensures g.env.imageLength(Slice(cells, g.Slot().offset, g.Slot().size)) == Some(|g.plan.Image()|)
  {
    hide Covers;
    var slot := g.Slot();
    ImageKept(cells, cells, slot.offset, g.plan.Image());
    var s := Slice(cells, slot.offset, slot.size);
    assert s[..|g.plan.Image()|] == Slice(cells, slot.offset, |g.plan.Image()|);
  }

  lemma CommitSucceeds(g: Goal, cells: seq<byte>)
    requires g.Valid() && Conforming(g) && NotCommitted(g, cells)
    ensures Commit(g.env.layout, cells, g.target, Healthy).ok
  {
    hide ActiveEntry;
  }

  lemma EndSucceeds(g: Goal, d: Device, f: Frame)
    requires g.Valid() && Conforming(g) && Sync(g, d, g.plan.Last())
    requires f == Request(g.plan, g.plan.Last())
    ensures Sound(g.env, d) && FinishUpdate(g.env, d, f, NO_FAULTS).status == OK
  {
    hide Judge, MatchesLast, Conforming, NotCommitted, Covers, Commit;
    OffsetBound(g.plan, |g.plan.chunks|);
    VerifierAgrees(g, d.cells);
    CommitSucceeds(g, d.cells);
  }

  lemma ExecuteSucceeds(g: Goal, d: Device, k: nat, f: Frame)
    requires g.Valid() && Conforming(g) && 0 < k <= g.plan.Last() && Sync(g, d, k) && f == Request(g.plan, k)
    ensures Sound(g.env, d) && Execute(g.env, d, f, NO_FAULTS).0.status == OK
  {
    hide BeginUpdate, WriteUpdate, FinishUpdate, Open, PayloadAt, Judge, MatchesLast, NotCommitted, Conforming;
    if k == g.plan.Last() {
      EndSucceeds(g, d, f);
    } else if k == g.plan.infos + 1 {
      BeginSucceeds(g, d, f);
    } else if k > g.plan.infos {
      DataSucceeds(g, d, k, f);
    }
  }

  lemma CleanIsAdmissible(g: Goal, d: Device, f: Frame)
    requires Sound(g.env, d) && Process(g.env, d, f, NO_FAULTS).executed != Some(ERR_FLASH)
    ensures Admissible(g.env, d, f, NO_FAULTS)
  {
    hide Process, Sound, Commit, ActiveEntry, NextEntry;
  }

  lemma CleanExecutes(g: Goal, d: Device, k: nat, f: Frame)
    requires g.Valid() && Conforming(g) && 0 < k <= g.plan.Last() && Sync(g, d, k) && f == Request(g.plan, k)
    ensures Sound(g.env, d) && Process(g.env, d, f, NO_FAULTS).executed == Some(OK)
    ensures Admissible(g.env, d, f, NO_FAULTS)
  {
    hide Process, Execute, Sound, Phase, Judge, MatchesLast, NotCommitted, Conforming, Admissible, Decode;
    ExecuteSucceeds(g, d, k, f);
    var (h, action) := Execute(g.env, d, f, NO_FAULTS);
    NextIsExecuted(g, d, k, NO_FAULTS, f, h, action, Process(g.env, d, f, NO_FAULTS));
    CleanIsAdmissible(g, d, f);
  }

  /** Without faults every request of the plan moves the device one step on. */
  lemma CleanStep(g: Goal, d: Device, k: nat)
    requires g.Valid() && Conforming(g) && 0 < k < g.plan.Last() && Sync(g, d, k)
    ensures Sound(g.env, d) && Admissible(g.env, d, Request(g.plan, k), NO_FAULTS)
    ensures var o := Process(g.env, d, Request(g.plan, k), NO_FAULTS);
      o.action == Continue && Judge(g.plan, k, o.sent) == Accepted && Sync(g, o.device, k + 1)
  {
    hide Process, Execute, Sound, Phase, Judge, MatchesLast, NotCommitted, Conforming, Admissible, Decode, Advanced,
      Request;
    var f := Request(g.plan, k);
    CleanExecutes(g, d, k, f);
    SyncStep(g, d, k, NO_FAULTS);
    var o := Process(g.env, d, f, NO_FAULTS);
    var (h, action) := Execute(g.env, d, f, NO_FAULTS);
    NextIsExecuted(g, d, k, NO_FAULTS, f, h, action, o);
    ProcessEffect(g.env, d, f, NO_FAULTS);
    AdmissibleParts(g, d, f, o);
    RequestContinues(g, d, k, NO_FAULTS, f, h, action, o);
    RequestAdvances(g, d, k, NO_FAULTS, f, o);
    AcceptedAdvances(g, d, k, h, o);
  }

  lemma AdmissibleParts(g: Goal, d: Device, f: Frame, o: Outcome)
    requires Sound(g.env, d) && o == Process(g.env, d, f, NO_FAULTS) && Admissible(g.env, d, f, NO_FAULTS)
    ensures BenignStep(g.env, d, NO_FAULTS) && NorFailure(g.env, d, f, o)
  {
    hide Process, Sound, Benign, NorFailure, BenignStep;
  }

  lemma CleanEnd(g: Goal, d: Device)
    requires g.Valid() && Conforming(g) && Sync(g, d, g.plan.Last())
    ensures Sound(g.env, d) && Admissible(g.env, d, Request(g.plan, g.plan.Last()), NO_FAULTS)
    ensures var o := Process(g.env, d, Request(g.plan, g.plan.Last()), NO_FAULTS);
      o.action == Reset && Judge(g.plan, g.plan.Last(), o.sent) == Accepted && Committed(g, o.device.cells)
  {
    hide Process, Execute, Sound, Phase, Judge, MatchesLast, NotCommitted, Conforming, Admissible, Decode, Committed,
      Effect;
    var k := g.plan.Last();
    var f := Request(g.plan, k);
    CleanExecutes(g, d, k, f);
    SyncEnd(g, d, NO_FAULTS);
    ProcessEffect(g.env, d, f, NO_FAULTS);
    EndResets(g, d, f, Process(g.env, d, f, NO_FAULTS));
  }

  lemma EndResets(g: Goal, d: Device, f: Frame, o: Outcome)
    requires Sound(g.env, d) && f.command == END && Effect(g.env, d, f, NO_FAULTS, o) && o.executed == Some(OK)
    ensures o.action == Reset
  {
    hide FinishUpdate, Sound;
  }

  // ----- Whole updates -----

  function Round(): seq<Move> {
    [Send, DeviceReceive(NO_FAULTS), HostReceive]
  }

  function Rounds(n: nat): seq<Move> {
    if n == 0 then [] else Rounds(n - 1) + Round()
  }

  lemma ExecutionThen(g: Goal, s: System, moves: seq<Move>, move: Move)
    requires g.Valid() && WellFormed(g, s)
    ensures Execution(g, s, moves + [move]) == Next(g, Execution(g, s, moves), move)
    ensures TolerableRun(g, s, moves + [move])
      <==> TolerableRun(g, s, moves) && Tolerable(g, Execution(g, s, moves), move)
  {
    hide Next, WellFormed, Tolerable;
    assert (moves + [move])[..|moves|] == moves;
  }

  /** One request and one reply on empty channels. */
  ghost predicate Exchange(g: Goal, s: System, r: System, h: nat)
    requires g.Valid() && h <= g.plan.Last()
  {
    s.host == Waiting(h) && s.toDevice == [] && s.toHost == [] && r.toDevice == [] && r.toHost == []
    && r.host == (if h == g.plan.Last() then Done else Waiting(h + 1))
  }

  ghost predicate Exchanged(g: Goal, s: System, r: System, h: nat, after: Mode)
    requires g.Valid() && WellFormed(g, s) && h <= g.plan.Last()
  {
    var s1 := Next(g, s, Send);
    var s2 := Next(g, s1, DeviceReceive(NO_FAULTS));
    && r == Next(g, s2, HostReceive) && r.mode == after && Exchange(g, s, r, h)
    && Tolerable(g, s, Send) && Tolerable(g, s1, DeviceReceive(NO_FAULTS)) && Tolerable(g, s2, HostReceive)
  }

  lemma ExchangeHappens(g: Goal, s: System, h: nat, after: Mode, sent: seq<byte>) returns (r: System)
    requires g.Valid() && WellFormed(g, s) && h <= g.plan.Last()
    requires s.host == Waiting(h) && s.toDevice == [] && s.toHost == []
    requires Answer(g, s.mode, Request(g.plan, h), NO_FAULTS) == (after, [sent])
    requires Judge(g.plan, h, sent) == Accepted
    requires s.mode.Serving? ==> Admissible(g.env, s.mode.device, Request(g.plan, h), NO_FAULTS)
    ensures Exchanged(g, s, r, h, after) && r.mode == after
  {
    hide Answer, Judge, Decode, Encode, Request, SoundMode, Admissible;
    CodecInverse(Encode(Request(g.plan, h)), Request(g.plan, h));
    assert [] + [sent] == [sent];
    r := Next(g, Next(g, Next(g, s, Send), DeviceReceive(NO_FAULTS)), HostReceive);
  }

  lemma FirstExchange(g: Goal, s: System) returns (r: System)
    requires g.Valid() && Conforming(g) && Initial(g, s) && WellFormed(g, s) && !s.mode.Gone?
    ensures r.mode.Serving? && Sync(g, r.mode.device, 1) && Exchanged(g, s, r, 0, r.mode)
  {
    hide Process, Sync, Judge, Decode, Exchanged, NotCommitted, Sound, Coherent, Fresh, Conforming;
    var f := Request(g.plan, 0);
    OnlyHelloOpens(g.plan, 0);
    var d := if s.mode.Serving? then s.mode.device else Fresh(g.env, s.mode.cells);
    if s.mode.Serving? {
      HelloSyncs(g, d, NO_FAULTS);
      HelloIsClean(g, d);
    } else {
      ServeEntry(g, s.mode.cells, NO_FAULTS);
    }
    var o := Process(g.env, d, f, NO_FAULTS);
    r := ExchangeHappens(g, s, 0, Serving(o.device), o.sent);
  }

  lemma HelloIsClean(g: Goal, d: Device)
    requires g.Valid() && Idle(g, d)
    ensures Admissible(g.env, d, Request(g.plan, 0), NO_FAULTS)
  {
    hide Process, Sound, Commit, ActiveEntry, NextEntry, NotCommitted, Coherent;
  }

  lemma NextExchange(g: Goal, s: System, k: nat) returns (r: System)
    requires g.Valid() && Conforming(g) && WellFormed(g, s) && 0 < k < g.plan.Last()
    requires s.host == Waiting(k) && s.toDevice == [] && s.toHost == [] && s.mode.Serving? && Sync(g, s.mode.device, k)
    ensures r.mode.Serving? && Sync(g, r.mode.device, k + 1) && Exchanged(g, s, r, k, r.mode)
  {
    hide Process, Sync, Judge, Decode, Exchanged, Sound, Conforming, Admissible, Request;
    var d := s.mode.device;
    CleanStep(g, d, k);
    var o := Process(g.env, d, Request(g.plan, k), NO_FAULTS);
    r := ExchangeHappens(g, s, k, Serving(o.device), o.sent);
  }

  lemma LastExchange(g: Goal, s: System) returns (r: System)
    requires g.Valid() && Conforming(g) && WellFormed(g, s)
    requires s.host == Waiting(g.plan.Last()) && s.toDevice == [] && s.toHost == []
    requires s.mode.Serving? && Sync(g, s.mode.device, g.plan.Last())
    ensures r.mode.Entry? && Committed(g, r.mode.cells) && Exchanged(g, s, r, g.plan.Last(), r.mode)
  {
    hide Process, Sync, Judge, Decode, Exchanged, Sound, Conforming, Admissible, Request, Committed;
    var k, d := g.plan.Last(), s.mode.device;
    CleanEnd(g, d);
    var o := Process(g.env, d, Request(g.plan, k), NO_FAULTS);
    r := ExchangeHappens(g, s, k, Entry(o.device.cells), o.sent);
  }

  lemma RoundExecutes(g: Goal, s: System, n: nat, r: System, h: nat, after: Mode)
    requires g.Valid() && WellFormed(g, s) && h <= g.plan.Last()
    requires TolerableRun(g, s, Rounds(n)) && Exchanged(g, Execution(g, s, Rounds(n)), r, h, after)
    ensures Execution(g, s, Rounds(n + 1)) == r && TolerableRun(g, s, Rounds(n + 1))
  {
    hide Next, WellFormed, Tolerable, Exchange, Execution, TolerableRun;
    var m := Rounds(n);
    ExecutionThen(g, s, m, Send);
    ExecutionThen(g, s, m + [Send], DeviceReceive(NO_FAULTS));
    ExecutionThen(g, s, m + [Send] + [DeviceReceive(NO_FAULTS)], HostReceive);
    assert m + Round() == m + [Send] + [DeviceReceive(NO_FAULTS)] + [HostReceive];
  }

  lemma ExecutionStarts(g: Goal, s: System)
    requires g.Valid() && WellFormed(g, s)
    ensures Execution(g, s, Rounds(0)) == s && TolerableRun(g, s, Rounds(0))
  {
    hide WellFormed;
  }

  lemma {:induction false} RoundsAdvance(g: Goal, s: System, n: nat)
    requires g.Valid() && Conforming(g) && Initial(g, s) && WellFormed(g, s) && !s.mode.Gone? && 0 < n <= g.plan.Last()
    ensures TolerableRun(g, s, Rounds(n))
    ensures var r := Execution(g, s, Rounds(n));
      r.host == Waiting(n) && r.toDevice == [] && r.toHost == [] && r.mode.Serving? && Sync(g, r.mode.device, n)
  {
    hide Exchanged, Sync, Conforming, Execution, TolerableRun, Initial, WellFormed;
    if n == 1 {
      ExecutionStarts(g, s);
      var r := FirstExchange(g, s);
      RoundExecutes(g, s, 0, r, 0, r.mode);
      ExchangeShape(g, s, r, 0, r.mode);
    } else {
      RoundsAdvance(g, s, n - 1);
      var before := Execution(g, s, Rounds(n - 1));
      var r := NextExchange(g, before, n - 1);
      RoundExecutes(g, s, n - 1, r, n - 1, r.mode);
      ExchangeShape(g, before, r, n - 1, r.mode);
    }
  }

  lemma ExchangeShape(g: Goal, s: System, r: System, h: nat, after: Mode)
    requires g.Valid() && WellFormed(g, s) && h <= g.plan.Last() && Exchanged(g, s, r, h, after)
    ensures Exchange(g, s, r, h)
  {
    hide Exchange, Next, Tolerable;
  }

  /** Without faults or losses, one exchange per request completes the update: the HELLO, the INFOs, the BEGIN,
      one DATA per chunk and the END. */
  lemma CleanUpdateCompletes(g: Goal, s: System)
    requires g.Valid() && Conforming(g) && Initial(g, s) && WellFormed(g, s) && !s.mode.Gone?
    ensures var moves := Rounds(g.plan.infos + |g.plan.chunks| + 3); var r := Execution(g, s, moves);
      && TolerableRun(g, s, moves) && r.host == Done && Committed(g, r.mode.Flash())
  {
    hide Exchanged, Sync, Conforming, Tolerable, Next, Committed, Initial, WellFormed;
    var n := g.plan.Last();
    RoundsAdvance(g, s, n);
    var before := Execution(g, s, Rounds(n));
    var r := LastExchange(g, before);
    RoundExecutes(g, s, n, r, n, r.mode);
    ExchangeShape(g, before, r, n, r.mode);
  }

  /** The ending is not symmetric: if only the last reply is lost and the host gives up, it reports failure
      although the device has committed. */
  lemma LostEndReplyHidesSuccess(g: Goal, s: System)
    requires g.Valid() && Conforming(g) && Initial(g, s) && WellFormed(g, s) && !s.mode.Gone?
    ensures var moves := Rounds(g.plan.Last()) + [Send] + [DeviceReceive(NO_FAULTS)] + [LoseToHost(0)] + [GiveUp];
      var r := Execution(g, s, moves);
      && TolerableRun(g, s, moves) && r.host == Failed(g.plan.Last()) && Committed(g, r.mode.Flash())
  {
    hide Exchanged, Sync, Conforming, Tolerable, Next, Committed, Initial, WellFormed, Execution, TolerableRun;
    var n := g.plan.Last();
    RoundsAdvance(g, s, n);
    var m, before := Rounds(n), Execution(g, s, Rounds(n));
    EndUnheard(g, before);
    ExecutionThen(g, s, m, Send);
    ExecutionThen(g, s, m + [Send], DeviceReceive(NO_FAULTS));
    ExecutionThen(g, s, m + [Send] + [DeviceReceive(NO_FAULTS)], LoseToHost(0));
    ExecutionThen(g, s, m + [Send] + [DeviceReceive(NO_FAULTS)] + [LoseToHost(0)], GiveUp);
  }

  /** If the END request itself never arrives, the host raises at the same point and nothing is committed: the host
      cannot tell the two apart. */
  lemma UnsentEndCommitsNothing(g: Goal, s: System)
    requires g.Valid() && Conforming(g) && Initial(g, s) && WellFormed(g, s) && !s.mode.Gone?
    ensures var moves := Rounds(g.plan.Last()) + [GiveUp]; var r := Execution(g, s, moves);
      && TolerableRun(g, s, moves) && r.host == Failed(g.plan.Last()) && NotCommitted(g, r.mode.Flash())
  {
    hide Conforming, NotCommitted, Initial, WellFormed, Execution, TolerableRun, Sound, Phase, Judge, MatchesLast;
    RoundsAdvance(g, s, g.plan.Last());
    ExecutionThen(g, s, Rounds(g.plan.Last()), GiveUp);
  }

  lemma EndUnheard(g: Goal, s: System)
    requires g.Valid() && Conforming(g) && WellFormed(g, s)
    requires s.host == Waiting(g.plan.Last()) && s.toDevice == [] && s.toHost == []
    requires s.mode.Serving? && Sync(g, s.mode.device, g.plan.Last())
    ensures var s1 := Next(g, s, Send); var s2 := Next(g, s1, DeviceReceive(NO_FAULTS));
      var s3 := Next(g, s2, LoseToHost(0)); var r := Next(g, s3, GiveUp);
      && Tolerable(g, s, Send) && Tolerable(g, s1, DeviceReceive(NO_FAULTS))
      && Tolerable(g, s2, LoseToHost(0)) && Tolerable(g, s3, GiveUp)
      && r.host == Failed(g.plan.Last()) && Committed(g, r.mode.Flash())
  {
    hide Sync, Conforming, Committed, Process, Judge, Decode, Encode, Request, SoundMode, Sound, Admissible, HostStep;
    var k, d := g.plan.Last(), s.mode.device;
    var f := Request(g.plan, k);
    CodecInverse(Encode(f), f);
    CleanEnd(g, d);
  }

  // ----- The hypotheses can be met -----

  /** A device whose otadata is blank starts every plan for its first slot, whatever the rest of its flash holds. */
  lemma BlankDeviceIsInitial(g: Goal, cells: seq<byte>)
    requires g.Valid() && |cells| == g.env.layout.flashSize && |g.env.layout.slots| >= 2 && g.target == 0
    requires g.before.None?
    requires forall i :: g.env.layout.otaInfo <= i < g.env.layout.otaInfo + 2 * SECTOR ==> cells[i] == ERASED
    ensures Initial(g, System(Waiting(0), [], [], Entry(cells)))
    ensures WellFormed(g, System(Waiting(0), [], [], Entry(cells)))
  {
    BlankSelectsNothing(g.env.layout, cells);
  }

  const ZERO_DIGEST: seq<byte> := seq(DIGEST_SIZE, _ => 0)

  /** The smallest update: one byte into the first slot of a blank device. */
  lemma SmallestUpdate() returns (g: Goal, s: System)
    ensures g.Valid() && Conforming(g) && Initial(g, s) && WellFormed(g, s) && !s.mode.Gone?
  {
    var plan := Plan(0, [], ZERO_DIGEST, [[7]]);
    g := Goal(Env(SMALL_LAYOUT, false, _ => ZERO_DIGEST, _ => Some(1), _ => []), plan, 0, None);
    assert plan.chunks[..0] == [] && plan.Image() == [] + [7] == [7];
    assert SMALL_LAYOUT.WellFormed();
    var cells := seq(0x8000, _ => ERASED);
    BlankDeviceIsInitial(g, cells);
    s := System(Waiting(0), [], [], Entry(cells));
  }
}
