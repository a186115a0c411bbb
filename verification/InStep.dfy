/** A device that has executed the first `k` requests of a plan, and what one more request does to it. */
module InStep {
  import opened Bytes
  import opened Crc
  import opened Frames
  import opened Flash
  import opened OtaData
  import opened Device
  import opened ReplyCache
  import opened UpdateHistory
  import opened UpdateSafety
  import opened HostProtocol

  /** What one update assumes and fixes: the slot it goes to and the active otadata sequence it starts from. */
  datatype Goal = Goal(env: Env, plan: Plan, target: nat, before: Option<u32>)
  {
    ghost predicate Valid() {
      && env.layout.WellFormed() && plan.Valid()
      && target < |env.layout.slots| && env.layout.slots[target].Present()
    }

    function Slot(): Partition
      requires target < |env.layout.slots|
    {
      env.layout.slots[target]
    }
  }

  /** The boot choice is still the one the update started from, and it is not the target. */
  ghost predicate NotCommitted(g: Goal, cells: seq<byte>)
    requires g.Valid()
  {
    && |cells| == g.env.layout.flashSize
    && ActiveSequence(g.env.layout, cells) == g.before
    && Selected(g.env.layout, cells) != Some(g.target)
    && !MarkerIsNext(g.env.layout, cells, g.target)
    && ChooseTarget(g.env.layout, Selected(g.env.layout, cells)) == Some(g.target)
  }

  /** The new image is in the target slot, and the target slot is selected. */
  ghost predicate Committed(g: Goal, cells: seq<byte>)
    requires g.Valid()
  {
    && |cells| == g.env.layout.flashSize
    && Selected(g.env.layout, cells) == Some(g.target)
    && |g.plan.Image()| <= g.Slot().size
    && Slice(cells, g.Slot().offset, |g.plan.Image()|) == g.plan.Image()
  }

  /** No cell has lost a bit that the image needs, and the first `n` cells hold the image. */
  ghost predicate Covers(cells: seq<byte>, at: nat, image: seq<byte>, n: nat)
    requires n <= |image| && at + |image| <= |cells|
  {
    && (forall i :: 0 <= i < |image| ==> And(cells[at + i], image[i]) == image[i])
    && (forall i :: 0 <= i < n ==> cells[at + i] == image[i])
  }

  /** The update is open and holds the first `j` chunks of the image. */
  ghost predicate Open(g: Goal, d: Device, j: nat)
    requires g.Valid() && j <= |g.plan.chunks|
  {
    && g.Slot().offset + |g.plan.Image()| <= |d.cells|
    && d.active && d.imageSize == |g.plan.Image()| && d.digest == g.plan.digest
    && d.nextOffset == g.plan.Offset(j) <= |g.plan.Image()|
    && Covers(d.cells, g.Slot().offset, g.plan.Image(), d.nextOffset)
  }

  ghost predicate Phase(g: Goal, d: Device, k: nat)
    requires g.Valid() && k <= g.plan.Last()
  {
    if k <= g.plan.infos + 1 then !d.active && d.nextOffset == 0
    else Open(g, d, k - g.plan.infos - 2)
  }

  ghost predicate Sync(g: Goal, d: Device, k: nat)
    requires g.Valid() && 0 < k <= g.plan.Last()
  {
    && Sound(g.env, d) && d.target == Some(g.target) && NotCommitted(g, d.cells)
    && d.expected == k % U16_MODULUS
    && MatchesLast(d, Request(g.plan, k - 1))
    && Judge(g.plan, k - 1, d.cache.value.reply) == Accepted
    && Phase(g, d, k)
  }

  /** A failed program clears no bit that the data keeps: flash can only be driven towards the data. */
  ghost predicate NorCells(cells: seq<byte>, after: seq<byte>, at: nat, data: seq<byte>) {
    forall i :: 0 <= i < |data| && at + i < |cells| && at + i < |after| ==>
      And(after[at + i], data[i]) == And(cells[at + i], data[i])
  }

  ghost predicate NorFailure(env: Env, d: Device, f: Frame, o: Outcome)
    requires Sound(env, d)
  {
    f.command == DATA && o.executed == Some(ERR_FLASH) && d.active && |f.payload| > OFFSET_SIZE ==>
      NorCells(d.cells, o.device.cells, TargetSlot(env, d).offset + d.nextOffset, Padded(f.payload[OFFSET_SIZE..]))
  }

  ghost predicate Admissible(env: Env, d: Device, f: Frame, x: Faults)
    requires Sound(env, d)
  {
    BenignStep(env, d, x) && NorFailure(env, d, f, Process(env, d, f, x))
  }

  lemma SameSize(env: Env, d: Device, f: Frame, x: Faults, o: Outcome)
    requires Sound(env, d) && Effect(env, d, f, x, o)
    ensures |o.device.cells| == |d.cells|
  {
    if |d.cells| > 0 {
      WriteConfined(env, d, f, x, o, 0);
    }
  }

  // ----- Replies -----

  /** Every reply the device builds is judged by its status, its sequence and its offset. */
  lemma ReplyJudged(g: Goal, i: nat, d: Device, status: u16, message: Message)
    requires g.Valid() && i <= g.plan.Last() && d.nextOffset <= U32_MAX
    ensures var f := Request(g.plan, i); var bytes := SendResponse(g.env, d, f, status, message);
      && Decode(bytes).Ok? && Decode(bytes).value.sequence == f.sequence
      && (Judge(g.plan, i, bytes) == Accepted <==>
        ResponseAccepted(f.command, f.sequence, OffsetAfter(g.plan, i),
          Response(status, d.expected, d.nextOffset, Detail(g.env, message))))
  {
    hide Decode, Encode, Judge, OffsetAfter, Request;
    AnswerJudged(g.plan, i, status, d.expected, d.nextOffset, Detail(g.env, message));
  }

  // ----- The flash under one DATA request of the plan -----

  lemma CoversErased(cells: seq<byte>, at: nat, image: seq<byte>)
    requires at + |image| <= |cells|
    requires forall i :: at <= i < at + |image| ==> cells[i] == ERASED
    ensures Covers(cells, at, image, 0)
  {
    forall i | 0 <= i < |image| ensures And(cells[at + i], image[i]) == image[i] {
      AndErased(image[i]);
    }
  }

  /** `written` is the data, perhaps padded behind the end of the image. */
  predicate Carries(written: seq<byte>, data: seq<byte>, image: seq<byte>, n: nat) {
    && n + |data| <= |image| && image[n..n + |data|] == data
    && data <= written && (|written| == |data| || n + |data| == |image|)
  }

  lemma PaddedCarries(data: seq<byte>, image: seq<byte>, n: nat)
    requires n + |data| <= |image| && image[n..n + |data|] == data && (|data| % 4 == 0 || n + |data| == |image|)
    ensures Carries(Padded(data), data, image, n)
  {
    WordsAfterAligned(0, |data|);
  }

  lemma CoversProgram(cells: seq<byte>, at: nat, image: seq<byte>, n: nat, data: seq<byte>, written: seq<byte>)
    requires Carries(written, data, image, n) && at + |image| <= |cells| && Covers(cells, at, image, n)
    ensures Covers(Program(cells, at + n, written), at, image, n + |data|)
  {
    hide And;
    var after := Program(cells, at + n, written);
    forall i | 0 <= i < |image|
      ensures after[at + i] == if n <= i < n + |data| then image[i] else cells[at + i]
    {
      if n <= i < n + |data| {
        assert written[i - n] == data[i - n] == image[n..n + |data|][i - n] == image[i];
      }
    }
    forall i | 0 <= i < |image| ensures And(after[at + i], image[i]) == image[i] {
      AndSelf(image[i]);
    }
  }

  lemma CoversFailure(cells: seq<byte>, after: seq<byte>, at: nat, image: seq<byte>, n: nat, data: seq<byte>,
                      written: seq<byte>)
    requires Carries(written, data, image, n) && at + |image| <= |cells| == |after| && Covers(cells, at, image, n)
    requires forall i :: 0 <= i < |cells| && !(at + n <= i < at + n + |written|) ==> after[i] == cells[i]
    requires NorCells(cells, after, at + n, written)
    ensures Covers(after, at, image, n)
  {
    hide And;
    forall i | 0 <= i < |image| ensures And(after[at + i], image[i]) == image[i] {
      if n <= i < n + |data| {
        assert image[n..n + |data|][i - n] == image[i] == data[i - n] == written[i - n];
        assert And(after[at + n + (i - n)], written[i - n]) == And(cells[at + n + (i - n)], written[i - n]);
      }
    }
  }

  // ----- The envelope: sequence, cache and reply around one executed request -----

  ghost predicate Enveloped(g: Goal, d: Device, k: nat, h: Handled, o: Outcome)
    requires g.Valid() && k <= g.plan.Last()
  {
    && HandledAs(o, h)
    && Decode(o.sent).Ok? && Decode(o.sent).value.sequence == Request(g.plan, k).sequence
    && (if h.status == OK then
          && o.device.expected == (k + 1) % U16_MODULUS
          && MatchesLast(o.device, Request(g.plan, k)) && o.device.cache.value.reply == o.sent
          && (Judge(g.plan, k, o.sent) == Accepted
              <==> (CommandAt(g.plan, k) in {HELLO, INFO} || h.device.nextOffset == OffsetAfter(g.plan, k)))
        else
          && o.device.expected == d.expected && o.device.cache == d.cache
          && Judge(g.plan, k, o.sent) != Accepted)
  }

  lemma ConcludeEnvelops(g: Goal, d: Device, k: nat, h: Handled, action: Action)
    requires g.Valid() && 0 < k <= g.plan.Last()
    requires d.expected == k % U16_MODULUS && h.device.nextOffset <= U32_MAX
    requires h.device.expected == d.expected && h.device.cache == d.cache
    ensures var o := Conclude(g.env, Request(g.plan, k), h, action);
      Enveloped(g, d, k, h, o) && o.action == action
  {
    hide Decode, Encode, Crc32, Crc16;
    NextIndex(k);
    if h.status == OK {
      SuccessEnvelops(g, d, k, h, h.device.(expected := (k + 1) % U16_MODULUS), action);
    } else {
      ReplyJudged(g, k, h.device, h.status, h.message);
    }
  }

  lemma SuccessEnvelops(g: Goal, d: Device, k: nat, h: Handled, after: Device, action: Action)
    requires g.Valid() && 0 < k <= g.plan.Last() && h.device.nextOffset <= U32_MAX
    requires h.status == OK && h.device.expected == k % U16_MODULUS
    requires after == h.device.(expected := (k + 1) % U16_MODULUS) && Next16(h.device.expected) == after.expected
    ensures Enveloped(g, d, k, h, Conclude(g.env, Request(g.plan, k), h, action))
  {
    hide Decode, Encode, Crc32, Crc16;
    ReplyJudged(g, k, after, OK, h.message);
  }

  lemma OtherSequenceIsNew(d: Device, f: Frame, g: Frame)
    requires MatchesLast(d, f) && f.sequence != g.sequence
    ensures !MatchesLast(d, g)
  {
  }

  lemma RequestFields(p: Plan, k: nat)
    requires p.Valid() && 0 < k <= p.Last()
    ensures var f := Request(p, k);
      f.version == PROTOCOL_VERSION && f.command != HELLO && f.sequence == k % U16_MODULUS
  {
  }

  /** The next request is current, and it is not a repetition of the cached one. */
  lemma NextIsNew(p: Plan, d: Device, k: nat, f: Frame, before: Frame)
    requires p.Valid() && 0 < k <= p.Last() && d.expected == k % U16_MODULUS
    requires f == Request(p, k) && before == Request(p, k - 1) && MatchesLast(d, before)
    ensures !MatchesLast(d, f) && f.version == PROTOCOL_VERSION && f.command != HELLO && f.sequence == d.expected
  {
    hide Request, CommandAt, PayloadAt, Encode, Crc32;
    RequestFields(p, k);
    RequestsDiffer(p, k - 1);
    OtherSequenceIsNew(d, before, f);
  }

  lemma NextIsExecuted(g: Goal, d: Device, k: nat, x: Faults, f: Frame, h: Handled, action: Action, o: Outcome)
    requires g.Valid() && 0 < k <= g.plan.Last() && Sync(g, d, k) && f == Request(g.plan, k)
    requires (h, action) == Execute(g.env, d, f, x) && o == Process(g.env, d, f, x)
    ensures Enveloped(g, d, k, h, o) && o.action == action && Sound(g.env, o.device) && o.device.target == d.target
  {
    NextIsNew(g.plan, d, k, f, Request(g.plan, k - 1));
    ProcessExecutes(g.env, d, f, x);
    ProcessSound(g.env, d, f, x);
    ExecuteSound(g.env, d, f, x);
    ConcludeEnvelops(g, d, k, h, action);
  }

  /** The first HELLO, from a fresh session or from whatever an earlier session left. */
  lemma HelloSyncs(g: Goal, d: Device, x: Faults)
    requires g.Valid() && Sound(g.env, d) && Coherent(d) && d.target == Some(g.target) && NotCommitted(g, d.cells)
    ensures var o := Process(g.env, d, Request(g.plan, 0), x);
      && Sync(g, o.device, 1) && o.action == Continue
      && Decode(o.sent).Ok? && Decode(o.sent).value.sequence == 0 && Judge(g.plan, 0, o.sent) == Accepted
  {
    var f := Request(g.plan, 0);
    if MatchesLast(d, f) {
      HelloRepeated(g, d);
    } else {
      ProcessHello(g.env, d, f, x);
      HelloAnew(g, d, d.Abandon().(expected := 0, cache := None));
    }
  }

  lemma HelloRepeated(g: Goal, d: Device)
    requires g.Valid() && Sound(g.env, d) && Coherent(d) && d.target == Some(g.target) && NotCommitted(g, d.cells)
    requires MatchesLast(d, Request(g.plan, 0))
    ensures Sync(g, d, 1) && Decode(d.cache.value.reply).Ok? && Decode(d.cache.value.reply).value.sequence == 0
  {
    hide Covers, Crc32, Crc16, Encode;
  }

  lemma HelloAnew(g: Goal, d: Device, idle: Device)
    requires g.Valid() && Sound(g.env, d) && d.target == Some(g.target) && NotCommitted(g, d.cells)
    requires idle == d.Abandon().(expected := 0, cache := None)
    ensures var o := Conclude(g.env, Request(g.plan, 0), Handled(idle, OK, HelloText), Continue);
      && Sync(g, o.device, 1) && o.action == Continue
      && Decode(o.sent).Ok? && Decode(o.sent).value.sequence == 0 && Judge(g.plan, 0, o.sent) == Accepted
  {
    hide NotCommitted, Decode, Crc32, Encode, ChooseTarget;
    ReplyJudged(g, 0, idle.(expected := 1), OK, HelloText);
  }

  // ----- The commands -----

  lemma StillNotCommitted(g: Goal, d: Device, f: Frame, x: Faults, o: Outcome)
    requires g.Valid() && Sound(g.env, d) && NotCommitted(g, d.cells) && Effect(g.env, d, f, x, o)
    requires BenignStep(g.env, d, x) && o.action != Reset
    ensures NotCommitted(g, o.device.cells)
  {
    StepKeepsSelection(g.env, d, f, x, o);
  }

  ghost predicate Advanced(g: Goal, k: nat, o: Outcome)
    requires g.Valid() && 0 < k < g.plan.Last()
    requires Sound(g.env, o.device) && o.device.target == Some(g.target)
  {
    if o.executed == Some(OK)
    then Phase(g, o.device, k + 1) && (CommandAt(g.plan, k) == INFO || o.device.nextOffset == OffsetAfter(g.plan, k))
    else Phase(g, o.device, k)
  }

  lemma BeginAccepted(env: Env, d: Device, f: Frame, x: Faults, r: Handled)
    requires Sound(env, d) && r == BeginUpdate(env, d, f, x) && r.status == OK
    ensures |f.payload| >= BEGIN_PREFIX && r.device.active && r.device.nextOffset == 0
    ensures r.device.imageSize == ReadLe32(f.payload, 0) && r.device.digest == f.payload[4..36]
    ensures |r.device.cells| == |d.cells| && r.device.imageSize <= TargetSlot(env, d).size
    ensures forall i :: TargetSlot(env, d).offset <= i < TargetSlot(env, d).offset + r.device.imageSize ==>
      r.device.cells[i] == ERASED
  {
  }

  lemma BeginRejected(env: Env, d: Device, f: Frame, x: Faults, r: Handled)
    requires Sound(env, d) && r == BeginUpdate(env, d, f, x) && r.status != OK && !d.active && d.nextOffset == 0
    ensures !r.device.active && r.device.nextOffset == 0
  {
  }

  lemma BeginAdvances(g: Goal, d: Device, k: nat, x: Faults, f: Frame, r: Handled, o: Outcome)
    requires g.Valid() && k == g.plan.infos + 1 && f == Request(g.plan, k)
    requires Sound(g.env, d) && d.target == Some(g.target) && Phase(g, d, k)
    requires Sound(g.env, o.device) && o.device.target == Some(g.target)
    requires r == BeginUpdate(g.env, d, f, x) && HandledAs(o, r)
    ensures Advanced(g, k, o)
  {
    BeginFields(|g.plan.Image()|, g.plan.digest, g.plan.version);
    if o.executed == Some(OK) {
      BeginAccepted(g.env, d, f, x, r);
      var at := g.Slot().offset;
      forall i | at <= i < at + o.device.imageSize ensures i < |o.device.cells| && o.device.cells[i] == ERASED {
        assert r.device.cells[i] == ERASED;
      }
      BegunPhase(g, o.device);
    } else {
      BeginRejected(g.env, d, f, x, r);
    }
  }

  lemma BegunPhase(g: Goal, d: Device)
    requires g.Valid() && Sound(g.env, d) && d.target == Some(g.target)
    requires d.active && d.nextOffset == 0 && d.imageSize == |g.plan.Image()| && d.digest == g.plan.digest
    requires forall i :: g.Slot().offset <= i < g.Slot().offset + d.imageSize ==> i < |d.cells| && d.cells[i] == ERASED
    ensures Phase(g, d, g.plan.infos + 2) && d.nextOffset == OffsetAfter(g.plan, g.plan.infos + 1)
  {
    assert g.plan.chunks[..0] == [];
    CoversErased(d.cells, g.Slot().offset, g.plan.Image());
  }

  /** A DATA request that was written: the update moves on. */
  lemma WriteAccepted(env: Env, d: Device, f: Frame, x: Faults, data: seq<byte>, r: Handled)
    requires Sound(env, d) && d.active && r == WriteUpdate(env, d, f, x) && r.status == OK
    requires |f.payload| > OFFSET_SIZE && f.payload[OFFSET_SIZE..] == data
    ensures |data| % 4 == 0 || d.nextOffset + |data| == d.imageSize
    ensures r.device == d.(
      cells := Program(d.cells, TargetSlot(env, d).offset + d.nextOffset, Padded(data)),
      nextOffset := d.nextOffset + |data|)
  {
  }

  /** A DATA request that was not: only a failed flash write leaves traces, and only where it wrote. */
  lemma WriteRejected(env: Env, d: Device, f: Frame, x: Faults, data: seq<byte>, r: Handled)
    requires Sound(env, d) && d.active && r == WriteUpdate(env, d, f, x) && r.status != OK
    requires |f.payload| > OFFSET_SIZE && f.payload[OFFSET_SIZE..] == data
    ensures r.device == d.(cells := r.device.cells) && |r.device.cells| == |d.cells|
    ensures r.device.cells != d.cells ==>
      r.status == ERR_FLASH && (|data| % 4 == 0 || d.nextOffset + |data| == d.imageSize)
    ensures var at := TargetSlot(env, d).offset + d.nextOffset;
      forall i :: 0 <= i < |d.cells| && !(at <= i < at + Words(|data|)) ==> r.device.cells[i] == d.cells[i]
  {
  }

  lemma DataRequest(p: Plan, k: nat)
    requires p.Valid() && p.infos + 1 < k < p.Last()
    ensures var f := Request(p, k); var j := k - p.infos - 2;
      && f.command == DATA && |f.payload| > OFFSET_SIZE
      && ReadLe32(f.payload, 0) == p.Offset(j) && f.payload[OFFSET_SIZE..] == p.chunks[j]
  {
    var j := k - p.infos - 2;
    OffsetBound(p, j);
    DataFields(p.Offset(j), p.chunks[j]);
  }

  lemma DataAccepted(g: Goal, d: Device, j: nat, x: Faults, f: Frame, data: seq<byte>, r: Handled, after: Device)
    requires g.Valid() && j < |g.plan.chunks| && data == g.plan.chunks[j]
    requires |f.payload| > OFFSET_SIZE && f.payload[OFFSET_SIZE..] == data
    requires Sound(g.env, d) && d.target == Some(g.target) && Open(g, d, j)
    requires Sound(g.env, after) && after.target == Some(g.target)
    requires r == WriteUpdate(g.env, d, f, x) && r.status == OK && SameUpdate(after, r.device)
    ensures Open(g, after, j + 1)
  {
    WriteAccepted(g.env, d, f, x, data, r);
    ChunkOpens(g, d, j, data, after);
  }

  lemma ChunkOpens(g: Goal, d: Device, j: nat, data: seq<byte>, after: Device)
    requires g.Valid() && j < |g.plan.chunks| && data == g.plan.chunks[j] && Open(g, d, j)
    requires |data| % 4 == 0 || d.nextOffset + |data| == d.imageSize
    requires after.cells == Program(d.cells, g.Slot().offset + d.nextOffset, Padded(data))
    requires after.nextOffset == d.nextOffset + |data|
    requires after.active && after.imageSize == d.imageSize && after.digest == d.digest
    ensures Open(g, after, j + 1)
  {
    hide Covers;
    ChunkCovers(g.plan, j, d.cells, g.Slot().offset);
  }

  lemma ChunkCovers(p: Plan, j: nat, cells: seq<byte>, at: nat)
    requires p.Valid() && j < |p.chunks| && at + |p.Image()| <= |cells|
    requires p.Offset(j) <= |p.Image()| && Covers(cells, at, p.Image(), p.Offset(j))
    requires |p.chunks[j]| % 4 == 0 || p.Offset(j) + |p.chunks[j]| == |p.Image()|
    ensures p.Offset(j + 1) == p.Offset(j) + |p.chunks[j]| <= |p.Image()|
    ensures Covers(Program(cells, at + p.Offset(j), Padded(p.chunks[j])), at, p.Image(), p.Offset(j + 1))
  {
    hide Covers;
    OffsetBound(p, j);
    PaddedCarries(p.chunks[j], p.Image(), p.Offset(j));
    CoversProgram(cells, at, p.Image(), p.Offset(j), p.chunks[j], Padded(p.chunks[j]));
  }

  lemma DataRejected(g: Goal, d: Device, j: nat, x: Faults, f: Frame, data: seq<byte>, r: Handled, after: Device)
    requires g.Valid() && j < |g.plan.chunks| && data == g.plan.chunks[j]
    requires |f.payload| > OFFSET_SIZE && f.payload[OFFSET_SIZE..] == data
    requires Sound(g.env, d) && d.target == Some(g.target) && Open(g, d, j)
    requires Sound(g.env, after) && after.target == Some(g.target)
    requires r == WriteUpdate(g.env, d, f, x) && r.status != OK && SameUpdate(after, r.device)
    requires r.status == ERR_FLASH ==> NorCells(d.cells, after.cells, g.Slot().offset + d.nextOffset, Padded(data))
    ensures Open(g, after, j)
  {
    hide WriteUpdate, Covers, And, NorCells, Padded;
    OffsetBound(g.plan, j);
    WriteRejected(g.env, d, f, x, data, r);
    if after.cells != d.cells {
      PaddedCarries(data, g.plan.Image(), d.nextOffset);
      CoversFailure(d.cells, after.cells, g.Slot().offset, g.plan.Image(), d.nextOffset, data, Padded(data));
    }
  }

  lemma DataAdvances(g: Goal, d: Device, j: nat, x: Faults, f: Frame, r: Handled, o: Outcome)
    requires g.Valid() && j < |g.plan.chunks|
    requires f.command == DATA && |f.payload| > OFFSET_SIZE && f.payload[OFFSET_SIZE..] == g.plan.chunks[j]
    requires Sound(g.env, d) && d.target == Some(g.target) && Open(g, d, j)
    requires Sound(g.env, o.device) && o.device.target == Some(g.target)
    requires r == WriteUpdate(g.env, d, f, x) && HandledAs(o, r) && NorFailure(g.env, d, f, o)
    ensures if o.executed == Some(OK) then Open(g, o.device, j + 1) else Open(g, o.device, j)
  {
    if o.executed == Some(OK) {
      DataAccepted(g, d, j, x, f, g.plan.chunks[j], r, o.device);
    } else {
      DataRejected(g, d, j, x, f, g.plan.chunks[j], r, o.device);
    }
  }

  lemma BeginCase(g: Goal, d: Device, k: nat, x: Faults, f: Frame, o: Outcome)
    requires g.Valid() && k == g.plan.infos + 1 && f == Request(g.plan, k)
    requires Sound(g.env, d) && d.target == Some(g.target) && Phase(g, d, k)
    requires Sound(g.env, o.device) && o.device.target == Some(g.target)
    requires Effect(g.env, d, f, x, o) && o.executed.Some?
    ensures Advanced(g, k, o)
  {
    hide Phase, Advanced, BeginUpdate, WriteUpdate, FinishUpdate, PayloadAt;
    BeginAdvances(g, d, k, x, f, BeginUpdate(g.env, d, f, x), o);
  }

  lemma DataCase(g: Goal, d: Device, k: nat, x: Faults, f: Frame, o: Outcome)
    requires g.Valid() && g.plan.infos + 1 < k < g.plan.Last() && f == Request(g.plan, k)
    requires Sound(g.env, d) && d.target == Some(g.target) && Phase(g, d, k)
    requires Sound(g.env, o.device) && o.device.target == Some(g.target)
    requires Effect(g.env, d, f, x, o) && o.executed.Some? && NorFailure(g.env, d, f, o)
    ensures Advanced(g, k, o)
  {
    hide Sound;
    hide Open, BeginUpdate, WriteUpdate, FinishUpdate, PayloadAt;
    DataRequest(g.plan, k);
    DataAdvances(g, d, k - g.plan.infos - 2, x, f, WriteUpdate(g.env, d, f, x), o);
    OpenOffset(g, o.device, k - g.plan.infos - 2);
    OpenOffset(g, o.device, k - g.plan.infos - 1);
  }

  lemma OpenOffset(g: Goal, d: Device, j: nat)
    requires g.Valid() && j <= |g.plan.chunks|
    ensures Open(g, d, j) ==> d.nextOffset == g.plan.Offset(j)
  {
    hide Covers;
  }

  lemma InfoCase(g: Goal, d: Device, k: nat, o: Outcome)
    requires g.Valid() && 0 < k <= g.plan.infos
    requires Sound(g.env, d) && d.target == Some(g.target) && Phase(g, d, k)
    requires Sound(g.env, o.device) && o.device.target == Some(g.target)
    requires o.executed == Some(OK) && SameUpdate(o.device, d)
    ensures Advanced(g, k, o)
  {
    hide Covers, Open;
  }

  lemma RequestAdvances(g: Goal, d: Device, k: nat, x: Faults, f: Frame, o: Outcome)
    requires g.Valid() && 0 < k < g.plan.Last() && Sync(g, d, k) && f == Request(g.plan, k)
    requires Effect(g.env, d, f, x, o) && o.executed.Some?
    requires BenignStep(g.env, d, x) && NorFailure(g.env, d, f, o) && o.action != Reset
    requires Sound(g.env, o.device) && o.device.target == Some(g.target)
    requires k <= g.plan.infos ==> o.executed == Some(OK) && SameUpdate(o.device, d)
    ensures Advanced(g, k, o) && NotCommitted(g, o.device.cells)
  {
    hide Covers, Open, Phase, Advanced, Sound, NotCommitted, Effect, NorFailure, BenignStep, MatchesLast, Judge;
    if k <= g.plan.infos {
      InfoCase(g, d, k, o);
    } else if k == g.plan.infos + 1 {
      BeginCase(g, d, k, x, f, o);
    } else {
      DataCase(g, d, k, x, f, o);
    }
    StillNotCommitted(g, d, f, x, o);
  }

  lemma RequestContinues(g: Goal, d: Device, k: nat, x: Faults, f: Frame, h: Handled, action: Action, o: Outcome)
    requires g.Valid() && 0 < k < g.plan.Last() && Sound(g.env, d) && f == Request(g.plan, k)
    requires (h, action) == Execute(g.env, d, f, x) && HandledAs(o, h)
    ensures action == Continue
    ensures k <= g.plan.infos ==> o.executed == Some(OK) && SameUpdate(o.device, d)
  {
    hide WriteUpdate, BeginUpdate, FinishUpdate, PayloadAt;
  }

  lemma AcceptedAdvances(g: Goal, d: Device, k: nat, h: Handled, o: Outcome)
    requires g.Valid() && 0 < k < g.plan.Last() && Enveloped(g, d, k, h, o) && o.executed == Some(OK)
    requires Sound(g.env, o.device) && o.device.target == Some(g.target)
    requires NotCommitted(g, o.device.cells) && Advanced(g, k, o)
    ensures Judge(g.plan, k, o.sent) == Accepted && Sync(g, o.device, k + 1)
  {
    hide Covers, Open, Phase, Sound, NotCommitted, Decode, Judge, MatchesLast, Request, OffsetAfter;
  }

  lemma RejectedStays(g: Goal, d: Device, k: nat, h: Handled, o: Outcome)
    requires g.Valid() && 0 < k < g.plan.Last() && Enveloped(g, d, k, h, o) && o.executed != Some(OK)
    requires Sync(g, d, k) && Sound(g.env, o.device) && o.device.target == Some(g.target)
    requires NotCommitted(g, o.device.cells) && Advanced(g, k, o)
    ensures Judge(g.plan, k, o.sent) != Accepted && Sync(g, o.device, k)
  {
    hide Covers, Open, Phase, Sound, NotCommitted, Decode, Judge, Request, OffsetAfter;
  }

  /** One more request: either it is accepted and the device is one step further, or nothing has moved. */
  lemma SyncStep(g: Goal, d: Device, k: nat, x: Faults)
    requires g.Valid() && 0 < k < g.plan.Last() && Sync(g, d, k)
    requires Admissible(g.env, d, Request(g.plan, k), x)
    ensures var o := Process(g.env, d, Request(g.plan, k), x);
      && o.action == Continue
      && Decode(o.sent).Ok? && Decode(o.sent).value.sequence == Request(g.plan, k).sequence
      && Sync(g, o.device, if Judge(g.plan, k, o.sent) == Accepted then k + 1 else k)
  {
    hide Covers, Open, Sound, Phase, NotCommitted, Effect, Execute, Process, Judge, MatchesLast, Decode, Advanced,
      Request;
    var f := Request(g.plan, k);
    var o := Process(g.env, d, f, x);
    var (h, action) := Execute(g.env, d, f, x);
    NextIsExecuted(g, d, k, x, f, h, action, o);
    ProcessEffect(g.env, d, f, x);
    RequestContinues(g, d, k, x, f, h, action, o);
    RequestAdvances(g, d, k, x, f, o);
    if o.executed == Some(OK) {
      AcceptedAdvances(g, d, k, h, o);
    } else {
      RejectedStays(g, d, k, h, o);
    }
  }

  /** The END request: either the new image is committed, or nothing has moved. */
  lemma SyncEnd(g: Goal, d: Device, x: Faults)
    requires g.Valid() && Sync(g, d, g.plan.Last()) && Admissible(g.env, d, Request(g.plan, g.plan.Last()), x)
    ensures var k := g.plan.Last(); var o := Process(g.env, d, Request(g.plan, k), x);
      && Decode(o.sent).Ok? && Decode(o.sent).value.sequence == Request(g.plan, k).sequence
      && (o.action == Reset <==> Judge(g.plan, k, o.sent) == Accepted)
      && (o.action == Reset ==> Committed(g, o.device.cells))
      && (o.action != Reset ==> o.action == Continue && Sync(g, o.device, k))
  {
    var k := g.plan.Last();
    var f := Request(g.plan, k);
    var o := Process(g.env, d, f, x);
    var (h, action) := Execute(g.env, d, f, x);
    NextIsExecuted(g, d, k, x, f, h, action, o);
    ProcessEffect(g.env, d, f, x);
    FinishShape(g.env, d, f, x);
    OffsetBound(g.plan, |g.plan.chunks|);
    EndCommitsOrKeeps(g, d, f, x, o);
  }

  lemma EndCommitsOrKeeps(g: Goal, d: Device, f: Frame, x: Faults, o: Outcome)
    requires g.Valid() && Sync(g, d, g.plan.Last()) && f == Request(g.plan, g.plan.Last())
    requires Effect(g.env, d, f, x, o) && o.executed.Some? && BenignStep(g.env, d, x)
    requires Sound(g.env, o.device) && o.device.target == d.target
    ensures o.action == Reset ==> Committed(g, o.device.cells)
    ensures o.action != Reset ==> o.action == Continue && NotCommitted(g, o.device.cells)
    ensures o.action != Reset ==> Phase(g, o.device, g.plan.Last())
  {
    SameSize(g.env, d, f, x, o);
    OffsetBound(g.plan, |g.plan.chunks|);
    if o.action == Reset {
      StepCommits(g.env, d, f, x, o);
      ImageKept(d.cells, o.device.cells, g.Slot().offset, g.plan.Image());
    } else {
      StillNotCommitted(g, d, f, x, o);
      EndKeepsPhase(g, d, f, x, o, FinishUpdate(g.env, d, f, x));
    }
  }

  lemma ImageKept(cells: seq<byte>, after: seq<byte>, at: nat, image: seq<byte>)
    requires at + |image| <= |cells| == |after| && Covers(cells, at, image, |image|)
    requires forall i :: at <= i < at + |image| ==> after[i] == cells[i]
    ensures Slice(after, at, |image|) == image
  {
    var s := Slice(after, at, |image|);
    assert forall i :: 0 <= i < |image| ==> s[i] == after[at + i] == cells[at + i] == image[i];
  }

  lemma CoversKept(cells: seq<byte>, after: seq<byte>, at: nat, image: seq<byte>, n: nat)
    requires n <= |image| && at + |image| <= |cells| == |after| && Covers(cells, at, image, n)
    requires forall i :: at <= i < at + |image| ==> after[i] == cells[i]
    ensures Covers(after, at, image, n)
  {
  }

  lemma EndKeepsPhase(g: Goal, d: Device, f: Frame, x: Faults, o: Outcome, finished: Handled)
    requires g.Valid() && Sound(g.env, d) && d.target == Some(g.target) && Phase(g, d, g.plan.Last())
    requires Sound(g.env, o.device) && o.device.target == d.target
    requires finished == FinishUpdate(g.env, d, f, x) && SameUpdate(o.device, finished.device)
    requires finished.status != OK
    ensures Phase(g, o.device, g.plan.Last())
  {
    FinishShape(g.env, d, f, x);
    FailedFinishStaysOpen(g.env, d, f, x);
    var at, size := g.Slot().offset, g.Slot().size;
    forall i | at <= i < at + size ensures o.device.cells[i] == d.cells[i] {
      FinishKeepsSlot(g.env, d, f, x, i);
    }
    CoversKept(d.cells, o.device.cells, at, g.plan.Image(), d.nextOffset);
  }

  lemma FailedFinishStaysOpen(env: Env, d: Device, f: Frame, x: Faults)
    requires Sound(env, d) && FinishUpdate(env, d, f, x).status != OK
    ensures FinishUpdate(env, d, f, x).device.active == d.active
  {
  }
}
