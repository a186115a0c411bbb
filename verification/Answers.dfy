/** What the bootloader answers to every frame, read off the wire: each status and text by its cause. */
module Answers {
  import opened Bytes
  import opened Crc
  import opened Frames
  import opened Flash
  import opened OtaData
  import opened Device
  import opened ReplyCache
  import opened UpdateHistory
  import opened HostProtocol

  // ----- Reading a reply -----

  /** The bytes are a frame that marks the request's command as answered, repeats its sequence, and carries the given
      status, the sequence and offset the session is at, and the first 96 bytes of the text. */
  predicate Tells(bytes: seq<byte>, f: Frame, status: u16, expected: u16, offset: nat, text: seq<byte>) {
    && Decode(bytes).Ok?
    && var r := Decode(bytes).value;
      && r.version == 1 && r.command == (if f.command < 0x80 then f.command + 0x80 else f.command)
      && r.sequence == f.sequence && DecodeResponse(r.payload).Ok?
      && var response := DecodeResponse(r.payload).value;
        && response.status == status && response.expected == expected && response.nextOffset == offset
        && response.detail == (if |text| <= 96 then text else text[..96])
  }

  function TextOf(env: Env, message: Message): seq<byte> {
    if message == NoText then [] else env.text(message)
  }

  ghost predicate Says(env: Env, f: Frame, o: Outcome, status: u16, message: Message) {
    Tells(o.sent, f, status, o.device.expected, o.device.nextOffset, TextOf(env, message))
  }

  lemma ReplyTells(command: byte, sequence: u16, f: Frame, status: u16, expected: u16, offset: u32, text: seq<byte>)
    requires command == f.command && sequence == f.sequence
    ensures var detail := if |text| <= 96 then text else text[..96];
      Tells(Encode(Reply(command, sequence, status, expected, offset, detail)), f, status, expected, offset, text)
  {
    hide Decode, Encode, DecodeResponse, ReplyPayload;
    var detail := if |text| <= 96 then text else text[..96];
    ReplyDecodes(command, sequence, status, expected, offset, detail);
    ResponseFields(status, expected, offset, detail);
  }

  lemma ResponseSays(env: Env, d: Device, f: Frame, status: u16, message: Message)
    requires d.nextOffset <= U32_MAX
    ensures Tells(SendResponse(env, d, f, status, message), f, status, d.expected, d.nextOffset, TextOf(env, message))
  {
    hide Encode, Reply, Tells;
    ReplyTells(f.command, f.sequence, f, status, d.expected, d.nextOffset, TextOf(env, message));
  }

  /** A reply is no request: its command has the top bit set, so no side takes its own frames for the other's; and it
      answers exactly the requests with that command and sequence. */
  lemma RepliesAreMarked(bytes: seq<byte>, f: Frame, status: u16, expected: u16, offset: nat, text: seq<byte>)
    requires Tells(bytes, f, status, expected, offset, text)
    ensures Decode(bytes).value.command >= 0x80
    ensures f.command < 0x80 ==>
      forall g: Frame :: g.command < 0x80 ==>
        (Replies(g, Decode(bytes).value) <==> g.command == f.command && g.sequence == f.sequence)
  {
    hide Decode, DecodeResponse;
  }

  /** The host's verdict, read off the frame: it ignores exactly the frames of another version, command or sequence,
      and accepts exactly an OK reply that announces the next sequence and, where data move, the expected offset. */
  lemma VerdictExactly(request: Frame, offset: nat, r: Frame)
    requires request.command < 0x80
    ensures JudgeFrame(request, offset, r) != Ignored
      <==> r.version == 1 && r.command == request.command + 0x80 && r.sequence == request.sequence
    ensures JudgeFrame(request, offset, r) == Accepted
      <==>
      && r.version == 1 && r.command == request.command + 0x80 && r.sequence == request.sequence
      && |r.payload| >= 9 && r.payload[8] <= 96 && |r.payload| == 9 + r.payload[8]
      && r.payload[..2] == [0, 0]
      && ReadLe16(r.payload, 2) == (request.sequence + 1) % 0x1_0000
      && (request.command in {0x10, 0x11, 0x12} ==> ReadLe32(r.payload, 4) == offset)
  {
    hide ReadLe32;
    if |r.payload| >= 9 {
      assert r.payload[..2] == [r.payload[0], r.payload[1]];
    }
  }

  // ----- Which frames are executed -----

  /** The frame is turned away unexecuted, with this status and text. */
  ghost predicate TurnsAway(env: Env, d: Device, f: Frame, o: Outcome, status: u16, message: Message) {
    o.device == d && o.action == Continue && o.executed.None? && Says(env, f, o, status, message)
  }

  predicate Current(d: Device, f: Frame) {
    if f.command == 0x01 then f.sequence == 0 else f.sequence == d.expected
  }

  /** A repetition brings back the cached bytes; a wrong version, a late HELLO and a request out of turn are turned
      away, in this order; everything else is executed. */
  lemma GateExactly(env: Env, d: Device, f: Frame, x: Faults)
    requires Sound(env, d)
    ensures var o := Process(env, d, f, x);
      && (MatchesLast(d, f) ==> o == Outcome(d, d.cache.value.reply, Continue, None))
      && (!MatchesLast(d, f) && f.version != 1 ==> TurnsAway(env, d, f, o, 0x1, UnsupportedVersion))
      && (!MatchesLast(d, f) && f.version == 1 && !Current(d, f) ==>
        TurnsAway(env, d, f, o, 0x3, if f.command == 0x01 then HelloSequenceNotZero else UnexpectedSequence))
      && (o.executed.Some? <==> !MatchesLast(d, f) && f.version == 1 && Current(d, f))
  {
    hide Executed, SendResponse, Crc32, Tells, MatchesLast;
    ResponseSays(env, d, f, ERR_VERSION, UnsupportedVersion);
    ResponseSays(env, d, f, ERR_SEQUENCE, HelloSequenceNotZero);
    ResponseSays(env, d, f, ERR_SEQUENCE, UnexpectedSequence);
    if !MatchesLast(d, f) && f.version == 1 && Current(d, f) {
      ExecutesSome(env, if f.command == HELLO then d.Abandon().(expected := 0, cache := None) else d, f, x);
    }
  }

  lemma ExecutesSome(env: Env, d: Device, f: Frame, x: Faults)
    requires Sound(env, d)
    ensures Executed(env, d, f, x).executed.Some?
  {
    hide Execute, SendResponse;
  }

  /** A fresh session is opened by exactly the first frame that is an executed HELLO. */
  lemma OpeningExactly(env: Env, cells: seq<byte>, f: Frame, x: Faults)
    requires env.layout.WellFormed() && |cells| == env.layout.flashSize
    ensures Sound(env, Fresh(env, cells))
    ensures OpensSession(f) <==> f.command == 0x01 && Process(env, Fresh(env, cells), f, x).executed == Some(0)
  {
    hide Process, Selected, ChooseTarget;
    FreshSound(env, cells);
    GateExactly(env, Fresh(env, cells), f, x);
    ProcessEffect(env, Fresh(env, cells), f, x);
  }

  // ----- What an executed request answers -----

  /** No update is open any more, and nothing of it is left to be announced or compared. */
  predicate Closes(a: Device, b: Device) {
    && !b.active && b.imageSize == 0 && b.nextOffset == 0 && b.digest == seq(32, _ => 0)
    && b.cells == a.cells && b.target == a.target
  }

  /** The request is executed: with this status and text, and the sequence moves exactly with a success. */
  ghost predicate Answers(env: Env, d: Device, f: Frame, o: Outcome, status: u16, message: Message) {
    && o.executed == Some(status) && Says(env, f, o, status, message)
    && o.device.expected == (if status != 0 then d.expected else (f.sequence + 1) % 0x1_0000)
    && (status != 0 ==> o.device.cache == d.cache)
    && (status == 0 ==> MatchesLast(o.device, f) && o.device.cache.value.reply == o.sent)
  }

  ghost predicate IsExecuted(d: Device, f: Frame) {
    !MatchesLast(d, f) && f.version == 1 && f.sequence == d.expected
  }

  lemma ConcludeAnswers(env: Env, d: Device, f: Frame, h: Handled, action: Action)
    requires h.device.nextOffset <= U32_MAX && h.device.expected == d.expected == f.sequence
    requires h.device.cache == d.cache
    ensures Answers(env, d, f, Conclude(env, f, h, action), h.status, h.message)
    ensures SameUpdate(Conclude(env, f, h, action).device, h.device)
    ensures Conclude(env, f, h, action).executed == Some(h.status)
  {
    hide SendResponse, Crc32, Tells;
    ResponseSays(env, h.device, f, h.status, h.message);
    ResponseSays(env, h.device.(expected := Next16(h.device.expected)), f, OK, h.message);
  }

  lemma ExecutedAnswers(env: Env, d: Device, f: Frame, x: Faults, h: Handled)
    requires Sound(env, d) && IsExecuted(d, f) && f.command != HELLO && h == Execute(env, d, f, x).0
    ensures var o := Process(env, d, f, x);
      && Answers(env, d, f, o, h.status, h.message) && SameUpdate(o.device, h.device)
      && o.executed == Some(h.status)
  {
    hide Execute, SendResponse, Crc32, Answers, Conclude, MatchesLast;
    ProcessExecutes(env, d, f, x);
    ExecuteSound(env, d, f, x);
    ConcludeAnswers(env, d, f, h, Execute(env, d, f, x).1);
  }

  /** HELLO, INFO, ABORT, BOOT and everything that is no command. */
  lemma SimpleAnswers(env: Env, d: Device, f: Frame, x: Faults)
    requires Sound(env, d) && IsExecuted(d, f) && f.command !in {0x01, 0x10, 0x11, 0x12}
    ensures var o := Process(env, d, f, x);
      && (f.command == 0x02 ==> Answers(env, d, f, o, 0x0, InfoText(d.target)) && SameUpdate(o.device, d))
      && (f.command in {0x13, 0x20} && f.payload == [] ==>
        Answers(env, d, f, o, 0x0, NoText) && Closes(d, o.device))
      && (f.command in {0x13, 0x20} && f.payload != [] ==>
        && Answers(env, d, f, o, 0x4, if f.command == 0x13 then AbortNotEmpty else BootNotEmpty)
        && SameUpdate(o.device, d))
      && (f.command !in {0x02, 0x13, 0x20} ==>
        Answers(env, d, f, o, 0x2, UnsupportedCommand) && SameUpdate(o.device, d))
  {
    hide Process, Answers, MatchesLast, BeginUpdate, WriteUpdate, FinishUpdate;
    ExecutedAnswers(env, d, f, x, Execute(env, d, f, x).0);
  }

  lemma HelloAnswers(env: Env, d: Device, f: Frame, x: Faults)
    requires Sound(env, d) && !MatchesLast(d, f) && f.version == 1 && f.command == 0x01 && f.sequence == 0
    ensures var o := Process(env, d, f, x);
      Answers(env, d, f, o, 0x0, HelloText) && Closes(d, o.device)
  {
    hide SendResponse, Crc32, Answers, Conclude, MatchesLast, Process;
    ProcessHello(env, d, f, x);
    var d0 := d.Abandon().(expected := 0, cache := None);
    ConcludeAnswers(env, d0, f, Handled(d0, OK, HelloText), Continue);
    AnswersAnew(env, d0, d, f, Process(env, d, f, x), HelloText);
  }

  /** A success does not depend on the sequence and the cache of before. */
  lemma AnswersAnew(env: Env, d0: Device, d: Device, f: Frame, o: Outcome, message: Message)
    requires Answers(env, d0, f, o, 0, message)
    ensures Answers(env, d, f, o, 0, message)
  {
    hide Tells, MatchesLast;
  }

  // ----- BEGIN -----

  predicate MalformedBegin(f: Frame, slotSize: nat) {
    || |f.payload| < 37 || ReadLe32(f.payload, 0) == 0 || ReadLe32(f.payload, 0) > slotSize
    || f.payload[36] > 32 || |f.payload| != 37 + f.payload[36]
  }

  /** The rounded size wraps or leaves the slot, or one of its blocks of 64 KiB cannot be erased. */
  predicate EraseFails(slotSize: nat, size: nat, x: Faults) {
    || size > 0xFFFF_F000 || (size + 0xFFF) / 0x1000 * 0x1000 > slotSize
    || (x.erase.Some? && x.erase.value.block * 0x1_0000 < (size + 0xFFF) / 0x1000 * 0x1000)
  }

  lemma BeginAnswers(env: Env, d: Device, f: Frame, x: Faults)
    requires Sound(env, d) && IsExecuted(d, f) && f.command == 0x10
    ensures var o := Process(env, d, f, x);
      && (env.encrypted ==> Answers(env, d, f, o, 0x6, FlashEncryption) && SameUpdate(o.device, d))
      && (!env.encrypted && d.target.None? ==>
        Answers(env, d, f, o, 0x6, TwoSlotsRequired) && SameUpdate(o.device, d))
      && (!env.encrypted && d.target.Some? ==>
        var size := TargetSlot(env, d).size;
        if MalformedBegin(f, size) then
          && Answers(env, d, f, o, 0x4, if |f.payload| < 37 then BeginTruncated else BadSizeOrVersion)
          && SameUpdate(o.device, d)
        else if EraseFails(size, ReadLe32(f.payload, 0), x) then
          && Answers(env, d, f, o, 0x8, EraseFailed)
          && Closes(d.(cells := o.device.cells), o.device)
        else
          && Answers(env, d, f, o, 0x0, NoText)
          && SameUpdate(o.device, d.(cells := o.device.cells, active := true, imageSize := ReadLe32(f.payload, 0),
            nextOffset := 0, digest := f.payload[4..36])))
  {
    hide Process, Answers, MatchesLast, Erase, Damage, ReadLe32, Layout.WellFormed;
    ExecutedAnswers(env, d, f, x, BeginUpdate(env, d, f, x));
  }

  // ----- DATA -----

  predicate UnusableData(d: Device, f: Frame) {
    || |f.payload| <= 4 || d.nextOffset + |f.payload| - 4 > d.imageSize
    || ((|f.payload| - 4) % 4 != 0 && d.nextOffset + |f.payload| - 4 != d.imageSize)
  }

  lemma DataAnswers(env: Env, d: Device, f: Frame, x: Faults)
    requires Sound(env, d) && IsExecuted(d, f) && f.command == 0x11
    ensures var o := Process(env, d, f, x);
      && (o.executed != Some(0x0) ==> SameUpdate(o.device, d.(cells := o.device.cells)))
      && (o.executed != Some(0x0) && o.executed != Some(0x8) ==> o.device.cells == d.cells)
      && (if !d.active then Answers(env, d, f, o, 0x6, BeginRequired)
          else if |f.payload| <= 4 then Answers(env, d, f, o, 0x4, NoImageBytes)
          else if ReadLe32(f.payload, 0) != d.nextOffset then Answers(env, d, f, o, 0x7, UnexpectedOffset)
          else if d.nextOffset + |f.payload| - 4 > d.imageSize then Answers(env, d, f, o, 0x4, ExceedsImage)
          else if UnusableData(d, f) then Answers(env, d, f, o, 0x4, NotAligned)
          else if x.write.Some? then Answers(env, d, f, o, 0x8, WriteFailed)
          else
            && Answers(env, d, f, o, 0x0, NoText)
            && SameUpdate(o.device, d.(cells := o.device.cells, nextOffset := d.nextOffset + |f.payload| - 4)))
  {
    hide Process, Answers, MatchesLast, Program, Damage, Padded, Layout.WellFormed, ReadLe32;
    ExecutedAnswers(env, d, f, x, WriteUpdate(env, d, f, x));
  }

  // ----- END -----

  /** The first check of the verify chain that fails decides the status: complete, readable, right hash, an image of
      the announced length, an otadata entry that could be written. */
  lemma EndAnswers(env: Env, d: Device, f: Frame, x: Faults)
    requires Sound(env, d) && IsExecuted(d, f) && f.command == 0x12
    ensures var o := Process(env, d, f, x);
      && (o.executed != Some(0x0) ==> SameUpdate(o.device, d.(cells := o.device.cells)))
      && (if f.payload != [] then Answers(env, d, f, o, 0x4, EndNotEmpty)
          else if !d.active then Answers(env, d, f, o, 0x6, NoUpdate)
          else if d.nextOffset != d.imageSize then Answers(env, d, f, o, 0x4, Incomplete)
          else if x.hashFails then Answers(env, d, f, o, 0x8, HashFailed)
          else
            var slot := TargetSlot(env, d);
            && slot.offset + slot.size <= |d.cells| && d.imageSize <= slot.size
            && var image := d.cells[slot.offset..slot.offset + d.imageSize];
              var verified := env.imageLength(d.cells[slot.offset..slot.offset + slot.size]);
              if env.sha256(image) != d.digest then Answers(env, d, f, o, 0xA, HashMismatch)
              else if x.verifyFails || verified != Some(d.imageSize) then Answers(env, d, f, o, 0x9, ImageInvalid)
              else if !Commit(env.layout, d.cells, d.target.value, x.commit).ok
              then Answers(env, d, f, o, 0x8, CommitFailed)
              else Answers(env, d, f, o, 0x0, NoText) && !o.device.active)
  {
    hide Process, Answers, MatchesLast, Commit;
    ExecutedAnswers(env, d, f, x, FinishUpdate(env, d, f, x));
  }
}
