/** The bootloader's update context as the C code keeps it: fields and buffers updated in place.
    Every method is proved equal to the session function of the same name. */
module Bootloader {
  import opened Bytes
  import opened Crc
  import opened Frames
  import opened FrameBuffers
  import opened Flash
  import opened OtaData
  import opened Device

  /** `read_le32(&frame->payload[0])`. */
  method ReadFirstLe32(frame: FrameBuffer) returns (value: u32)
    requires frame.Valid() && frame.payloadLength >= 4
    ensures value == ReadLe32(frame.Value().payload, 0)
  {
    ghost var payload := frame.Value().payload;
    value := ReadLe32(frame.payload[..4], 0);
    assert frame.payload[..4] == payload[..4];
  }

  class Bootloader {
    const env: Env
    const flash: FlashChip
    const responseFrame: FrameBuffer
    const encodedResponse: array<byte>
    const lastResponse: array<byte>
    const writeBuffer: array<byte>
    const expectedDigest: array<byte>
    var lastResponseLength: nat
    var hasLastResponse: bool
    var lastCommand: byte
    var lastSequence: u16
    var lastPayloadCrc: u32
    var expectedSequence: u16
    var updateActive: bool
    var targetIndex: Option<nat>
    var targetPartition: Partition
    var imageSize: u32
    var nextOffset: u32
    var sent: seq<seq<byte>>

    ghost predicate Shape()
      reads this, responseFrame
    {
      && responseFrame.payload.Length == MAX_PAYLOAD && writeBuffer.Length == MAX_PAYLOAD
      && encodedResponse.Length == MAX_FRAME && lastResponse.Length == MAX_FRAME
      && expectedDigest.Length == DIGEST_SIZE && lastResponseLength <= MAX_FRAME
      && responseFrame.payload !in {encodedResponse, lastResponse, writeBuffer, expectedDigest}
      && encodedResponse !in {lastResponse, writeBuffer, expectedDigest}
      && lastResponse !in {writeBuffer, expectedDigest} && writeBuffer != expectedDigest
      && (if targetIndex.Some?
          then targetIndex.value < |env.layout.slots| && targetPartition == env.layout.slots[targetIndex.value]
          else targetPartition.offset == 0)
    }

    /** A frame received into a buffer that the context does not own. */
    ghost predicate Foreign(frame: FrameBuffer)
      reads frame
    {
      frame.Valid() && frame != responseFrame
      && frame.payload !in {responseFrame.payload, encodedResponse, lastResponse, writeBuffer, expectedDigest}
    }

    ghost function State(): Device
      requires lastResponseLength <= lastResponse.Length
      reads this, flash, lastResponse, expectedDigest
    {
      Device(
        flash.cells, targetIndex, expectedSequence,
        if hasLastResponse
        then Some(Cached(lastCommand, lastSequence, lastPayloadCrc, lastResponse[..lastResponseLength]))
        else None,
        updateActive, imageSize, nextOffset, expectedDigest[..])
    }

    ghost predicate Valid()
      reads this, flash, responseFrame, lastResponse, expectedDigest
    {
      Shape() && Sound(env, State())
    }

    /** The zeroed context, before a target is chosen. */
    constructor (env: Env, flash: FlashChip)
      requires env.layout.WellFormed() && |flash.cells| == env.layout.flashSize
      ensures this.env == env && this.flash == flash && Valid() && sent == []
      ensures fresh(responseFrame) && fresh(responseFrame.payload) && fresh(encodedResponse) && fresh(lastResponse)
      ensures fresh(writeBuffer) && fresh(expectedDigest)
      ensures State() == Device(flash.cells, None, 0, None, false, 0, 0, seq(DIGEST_SIZE, _ => 0))
    {
      this.env, this.flash := env, flash;
      responseFrame := new FrameBuffer();
      encodedResponse, lastResponse := new byte[MAX_FRAME], new byte[MAX_FRAME];
      writeBuffer, expectedDigest := new byte[MAX_PAYLOAD], new byte[DIGEST_SIZE](_ => 0);
      lastResponseLength, hasLastResponse, lastCommand, lastSequence, lastPayloadCrc := 0, false, 0, 0, 0;
      expectedSequence, updateActive, imageSize, nextOffset := 0, false, 0, 0;
      targetIndex, targetPartition, sent := None, Partition(0, 0), [];
    }

    /** `choose_target`. */
    method ChooseSlot(bootIndex: Option<nat>) returns (found: bool)
      requires Shape() && targetIndex.None?
      modifies this`targetIndex, this`targetPartition
      ensures Shape() && found == targetIndex.Some?
      ensures State() == old(State()).(target := ChooseTarget(env.layout, bootIndex))
    {
      if |env.layout.slots| < 2 {
        return false;
      }
      var index := if bootIndex == Some(0) then 1 else 0;
      if !env.layout.slots[index].Present() {
        return false;
      }
      targetIndex, targetPartition := Some(index), env.layout.slots[index];
      return true;
    }

    /** `abandon_update`. */
    method AbandonUpdate()
      requires Shape()
      modifies this`updateActive, this`imageSize, this`nextOffset, expectedDigest
      ensures Shape() && State() == old(State()).Abandon()
    {
      updateActive := false;
      imageSize := 0;
      nextOffset := 0;
      forall i | 0 <= i < expectedDigest.Length {
        expectedDigest[i] := 0;
      }
      assert expectedDigest[..] == old(State()).Abandon().digest;
      assert lastResponse[..] == old(lastResponse[..]);
    }

    /** What is left of the context when the service returns. */
    method EndSession()
      requires Valid()
      modifies this`updateActive, this`imageSize, this`nextOffset, expectedDigest
      ensures Valid() && State() == old(State()).Abandon()
    {
      hide Shape, Layout.WellFormed;
      AbandonUpdate();
    }

    /** `erase_target_range`. */
    method EraseTargetRange(size: u32, fault: Option<BlockFault>) returns (ok: bool)
      requires Shape() && env.layout.WellFormed() && |flash.cells| == env.layout.flashSize
      requires targetIndex.Some? && targetPartition.Present()
      modifies flash
      ensures size > U32_MAX - 0xFFF || Sectors(size) > targetPartition.size ==> !ok && flash.cells == old(flash.cells)
      ensures size <= U32_MAX - 0xFFF && Sectors(size) <= targetPartition.size ==>
        (ok, flash.cells) == EraseBlocks(old(flash.cells), targetPartition.offset, Sectors(size), fault)
    {
      if size > U32_MAX - (SECTOR - 1) {
        return false;
      }
      var roundedUp: u32 := size + (SECTOR - 1);
      var eraseSize: u32 := roundedUp / SECTOR * SECTOR;
      if eraseSize > targetPartition.size {
        return false;
      }
      assert targetPartition.offset % SECTOR == 0 && targetPartition.offset + targetPartition.size <= |flash.cells|;
      ok := EraseBlockwise(targetPartition.offset, eraseSize, fault);
    }

    /** The loop of `erase_target_range`. */
    method EraseBlockwise(at: nat, eraseSize: nat, fault: Option<BlockFault>) returns (ok: bool)
      requires at % SECTOR == 0 && eraseSize % SECTOR == 0 && at + eraseSize <= |flash.cells| <= U32_MAX + 1
      modifies flash
      ensures (ok, flash.cells) == EraseBlocks(old(flash.cells), at, eraseSize, fault)
    {
      hide Erase, Damage;
      ghost var cells := flash.cells;
      EraseNothing(cells, at);
      var erased, block := 0, 0;
      while erased < eraseSize
        invariant erased == Min(block * FLASH_BLOCK, eraseSize)
        invariant flash.cells == Erase(cells, at, erased)
        invariant fault.Some? && fault.value.block < block ==> fault.value.block * FLASH_BLOCK >= eraseSize
      {
        var chunk := Min(eraseSize - erased, FLASH_BLOCK);
        ChunkAligned(at, eraseSize, block);
        EraseExtends(cells, at, erased, chunk);
        var address: u32 := at + erased;
        var done := flash.EraseRange(address, chunk,
          if fault.Some? && fault.value.block == block then Some(fault.value.residue) else None);
        if !done {
          return false;
        }
        erased, block := erased + chunk, block + 1;
      }
      return true;
    }

    /** `begin_update`. */
    method HandleBegin(frame: FrameBuffer, x: Faults) returns (status: u16, message: Message)
      requires Valid() && Foreign(frame)
      modifies this`updateActive, this`imageSize, this`nextOffset, expectedDigest, flash
      ensures Shape()
      ensures BeginUpdate(env, old(State()), old(frame.Value()), x) == Handled(State(), status, message)
    {
      assert env.layout.WellFormed() && (targetIndex.Some? ==> targetPartition.Present());
      if env.encrypted {
        return ERR_STATE, FlashEncryption;
      }
      if targetPartition.offset == 0 {
        return ERR_STATE, TwoSlotsRequired;
      }
      if frame.payloadLength < BEGIN_PREFIX {
        return ERR_LENGTH, BeginTruncated;
      }
      var size := ReadFirstLe32(frame);
      var versionLength := frame.payload[36];
      if size == 0 || size > targetPartition.size || versionLength > MAX_VERSION
        || frame.payloadLength != BEGIN_PREFIX + versionLength {
        return ERR_LENGTH, BadSizeOrVersion;
      }
      AbandonUpdate();
      var ok := EraseTargetRange(size, x.erase);
      if !ok {
        return ERR_FLASH, EraseFailed;
      }
      OpenUpdate(frame, size);
      return OK, NoText;
    }

    method OpenUpdate(frame: FrameBuffer, size: u32)
      requires Shape() && Foreign(frame) && frame.payloadLength >= BEGIN_PREFIX
      modifies this`updateActive, this`imageSize, this`nextOffset, expectedDigest
      ensures Shape() && State() == old(State()).(
        active := true, imageSize := size, nextOffset := 0, digest := frame.Value().payload[4..36])
    {
      ghost var payload := frame.Value().payload;
      updateActive := true;
      imageSize := size;
      nextOffset := 0;
      forall i | 0 <= i < DIGEST_SIZE {
        expectedDigest[i] := frame.payload[4 + i];
      }
      assert forall i :: 0 <= i < DIGEST_SIZE ==> payload[4..36][i] == payload[4 + i] == frame.payload[4 + i];
      assert expectedDigest[..] == payload[4..36];
      assert lastResponse[..] == old(lastResponse[..]);
    }

    /** `write_update`. */
    method HandleData(frame: FrameBuffer, x: Faults) returns (status: u16, message: Message)
      requires Valid() && Foreign(frame)
      modifies this`nextOffset, writeBuffer, flash
      ensures Shape()
      ensures WriteUpdate(env, old(State()), old(frame.Value()), x) == Handled(State(), status, message)
    {
      hide ReadLe32, Program, Damage, Padded, And, Words, Layout.WellFormed;
      if !updateActive {
        return ERR_STATE, BeginRequired;
      }
      if frame.payloadLength <= OFFSET_SIZE {
        return ERR_LENGTH, NoImageBytes;
      }
      var offset := ReadFirstLe32(frame);
      var dataLength := frame.payloadLength - OFFSET_SIZE;
      if offset != nextOffset {
        return ERR_OFFSET, UnexpectedOffset;
      }
      if nextOffset > imageSize || dataLength > imageSize - nextOffset {
        return ERR_LENGTH, ExceedsImage;
      }
      var isFinal := nextOffset + dataLength == imageSize;
      if !isFinal && dataLength % 4 != 0 {
        return ERR_LENGTH, NotAligned;
      }
      TargetFits(env, State(), dataLength);
      WriteUpdateWrites(env, State(), frame.Value(), x);
      var written := WritePadded(frame, dataLength, x);
      if !written {
        return ERR_FLASH, WriteFailed;
      }
      nextOffset := nextOffset + dataLength;
      return OK, NoText;
    }

    method WritePadded(frame: FrameBuffer, dataLength: nat, x: Faults) returns (written: bool)
      requires Shape() && Foreign(frame) && frame.payloadLength == OFFSET_SIZE + dataLength
      requires (targetPartition.offset + nextOffset) % 4 == 0
      requires targetPartition.offset + nextOffset + Words(dataLength) <= |flash.cells| <= U32_MAX + 1 && dataLength > 0
      modifies writeBuffer, flash
      ensures Shape() && written == x.write.None?
      ensures var at := targetPartition.offset + nextOffset;
        flash.cells == if written then Program(old(flash.cells), at, Padded(frame.Value().payload[OFFSET_SIZE..]))
          else Damage(old(flash.cells), at, Words(dataLength), x.write.value)
    {
      hide Padded, And, Words, Program, Damage;
      var paddedLength := FillWriteBuffer(frame, dataLength);
      var address: u32 := targetPartition.offset + nextOffset;
      written := flash.Write(address, writeBuffer[..paddedLength], x.write);
    }

    method FillWriteBuffer(frame: FrameBuffer, dataLength: nat) returns (paddedLength: nat)
      requires Shape() && Foreign(frame) && frame.payloadLength == OFFSET_SIZE + dataLength
      modifies writeBuffer
      ensures paddedLength == Words(dataLength) <= writeBuffer.Length
      ensures writeBuffer[..paddedLength] == Padded(frame.Value().payload[OFFSET_SIZE..])
    {
      ghost var data := frame.Value().payload[OFFSET_SIZE..];
      paddedLength := (dataLength + 3) / 4 * 4;
      WordsLeast(dataLength, MAX_PAYLOAD);
      forall i | 0 <= i < paddedLength {
        writeBuffer[i] := ERASED;
      }
      forall i | 0 <= i < dataLength {
        writeBuffer[i] := frame.payload[OFFSET_SIZE + i];
      }
      assert writeBuffer[..paddedLength] == Padded(data);
    }

    /** `commit_target`. */
    method CommitTarget(target: nat, fault: CommitFault) returns (ok: bool)
      requires env.layout.WellFormed() && |flash.cells| == env.layout.flashSize && target < |env.layout.slots|
      modifies flash
      ensures Commit(env.layout, old(flash.cells), target, fault) == CommitResult(ok, flash.cells)
    {
      hide ActiveEntry, EntrySequence, Entry, NextSequence, EntryWritten, NewEntry;
      var l := env.layout;
      if fault.ReadFails? || |l.slots| == 0 {
        return false;
      }
      var active := ActiveEntry(l, flash.cells);
      var nextEntry, sequence := 0, target + 1;
      if active.Some? {
        nextEntry := 1 - active.value;
        var fits;
        fits, sequence := ChooseSequence(target, EntrySequence(Entry(l, flash.cells, active.value)), |l.slots|);
        if !fits {
          return false;
        }
      }
      ok := WriteEntry(nextEntry, NewEntry(l, sequence), fault);
    }

    method WriteEntry(nextEntry: nat, entry: seq<byte>, fault: CommitFault) returns (ok: bool)
      requires env.layout.WellFormed() && |flash.cells| == env.layout.flashSize && nextEntry < 2
      requires |entry| == ENTRY_SIZE
      modifies flash
      ensures CommitResult(ok, flash.cells) == EntryWritten(env.layout, old(flash.cells), nextEntry, entry, fault)
    {
      var address: u32 := env.layout.otaInfo + nextEntry * SECTOR;
      EntryAligned(env.layout, nextEntry);
      ok := flash.EraseRange(address, SECTOR, if fault.EraseFails? then Some(fault.residue) else None);
      if ok {
        ok := flash.Write(address, entry, if fault.WriteFails? then Some(fault.residue) else None);
      }
    }

    /** `finish_update`. */
    method HandleEnd(frame: FrameBuffer, x: Faults) returns (status: u16, message: Message)
      requires Valid() && Foreign(frame)
      modifies this`updateActive, flash
      ensures Shape()
      ensures FinishUpdate(env, old(State()), old(frame.Value()), x) == Handled(State(), status, message)
    {
      hide Commit;
      if frame.payloadLength != 0 {
        return ERR_LENGTH, EndNotEmpty;
      }
      assert frame.Value().payload == [];
      if !updateActive {
        return ERR_STATE, NoUpdate;
      }
      if nextOffset != imageSize {
        return ERR_LENGTH, Incomplete;
      }
      if x.hashFails {
        return ERR_FLASH, HashFailed;
      }
      var actual := env.sha256(Slice(flash.cells, targetPartition.offset, imageSize));
      if actual != expectedDigest[..] {
        return ERR_HASH, HashMismatch;
      }
      var verified := env.imageLength(Slice(flash.cells, targetPartition.offset, targetPartition.size));
      if x.verifyFails || verified != Some(imageSize as int) {
        return ERR_IMAGE, ImageInvalid;
      }
      var ok := CommitTarget(targetIndex.value, x.commit);
      if !ok {
        return ERR_FLASH, CommitFailed;
      }
      updateActive := false;
      return OK, NoText;
    }

    /** `send_response`: build, encode, cache if asked to, and only then send. */
    method Respond(command: byte, sequence: u16, status: u16, message: Message, cacheResponse: bool)
      requires Shape()
      modifies this`hasLastResponse, this`lastResponseLength, this`sent
      modifies responseFrame, responseFrame.payload, encodedResponse, lastResponse
      ensures Shape()
      ensures var bytes := Encode(Reply(command, sequence, status, expectedSequence, nextOffset, Detail(env, message)));
        && sent == old(sent) + [bytes]
        && (cacheResponse ==> hasLastResponse && lastResponse[..lastResponseLength] == bytes)
      ensures !cacheResponse ==> hasLastResponse == old(hasLastResponse) && lastResponse[..] == old(lastResponse[..])
      ensures !cacheResponse ==> lastResponseLength == old(lastResponseLength)
    {
      hide Encode, Reply, Detail;
      var encodedLength := BuildResponse(command, sequence, status, message);
      if cacheResponse {
        CacheResponse(encodedLength);
      }
      sent := sent + [encodedResponse[..encodedLength]];
    }

    method BuildResponse(command: byte, sequence: u16, status: u16, message: Message) returns (encodedLength: nat)
      requires Shape()
      modifies responseFrame, responseFrame.payload, encodedResponse
      ensures Shape() && encodedLength <= encodedResponse.Length
      ensures encodedResponse[..encodedLength]
        == Encode(Reply(command, sequence, status, expectedSequence, nextOffset, Detail(env, message)))
    {
      hide Header, Crc32, Crc16, Reply, Detail;
      FillResponse(command, sequence, status, message);
      var ok;
      ok, encodedLength := EncodeInto(responseFrame, encodedResponse);
    }

    method CacheResponse(length: nat)
      requires Shape() && length <= MAX_FRAME
      modifies this`hasLastResponse, this`lastResponseLength, lastResponse
      ensures Shape() && hasLastResponse && lastResponse[..lastResponseLength] == encodedResponse[..length]
    {
      forall i | 0 <= i < length {
        lastResponse[i] := encodedResponse[i];
      }
      lastResponseLength := length;
      hasLastResponse := true;
    }

    method FillResponse(command: byte, sequence: u16, status: u16, message: Message)
      requires Shape()
      modifies responseFrame, responseFrame.payload
      ensures Shape() && responseFrame.Valid()
      ensures responseFrame.Value()
        == Reply(command, sequence, status, expectedSequence, nextOffset, Detail(env, message))
    {
      var detail := Detail(env, message);
      responseFrame.version, responseFrame.command := PROTOCOL_VERSION, ResponseCommand(command);
      responseFrame.sequence := sequence;
      FillReplyPayload(responseFrame.payload, status, expectedSequence, nextOffset, detail);
      responseFrame.payloadLength := RESPONSE_PREFIX + |detail|;
    }

    /** A reply that leaves the context as it is. */
    method Reject(frame: FrameBuffer, status: u16, message: Message)
      requires Shape() && Foreign(frame)
      modifies this`hasLastResponse, this`lastResponseLength, this`sent
      modifies responseFrame, responseFrame.payload, encodedResponse, lastResponse
      ensures Shape() && State() == old(State())
      ensures sent == old(sent) + [SendResponse(env, old(State()), frame.Value(), status, message)]
    {
      hide Encode, Reply, Detail;
      Respond(frame.command, frame.sequence, status, message, false);
      assert lastResponse[..lastResponseLength] == lastResponse[..][..lastResponseLength];
    }

    /** `request_matches_last`. */
    method RequestMatchesLast(frame: FrameBuffer, payloadCrc: u32) returns (matches: bool)
      requires Shape() && Foreign(frame) && payloadCrc == Crc32(frame.Value().payload)
      ensures matches == MatchesLast(State(), frame.Value())
    {
      matches := hasLastResponse && frame.command == lastCommand && frame.sequence == lastSequence
        && payloadCrc == lastPayloadCrc;
    }

    /** An accepted HELLO forgets the update and the cached reply. */
    method StartSession()
      requires Valid()
      modifies this`updateActive, this`imageSize, this`nextOffset, this`expectedSequence, this`hasLastResponse
      modifies expectedDigest
      ensures Valid() && State() == old(State()).Abandon().(expected := 0, cache := None)
    {
      AbandonUpdate();
      expectedSequence := 0;
      hasLastResponse := false;
    }

    /** The command switch of `process_frame`. */
    method Dispatch(frame: FrameBuffer, x: Faults) returns (status: u16, message: Message, action: Action)
      requires Valid() && Foreign(frame)
      modifies this`updateActive, this`imageSize, this`nextOffset, expectedDigest, writeBuffer, flash
      ensures Valid()
      ensures Execute(env, old(State()), old(frame.Value()), x) == (Handled(State(), status, message), action)
    {
      ghost var d, f := State(), frame.Value();
      ExecuteSound(env, d, f, x);
      assert f.payload == [] <==> frame.payloadLength == 0;
      status, message, action := OK, NoText, Continue;
      if frame.command == HELLO {
        message := HelloText;
      } else if frame.command == INFO {
        message := InfoText(targetIndex);
      } else if frame.command == BEGIN {
        status, message := HandleBegin(frame, x);
      } else if frame.command == DATA {
        status, message := HandleData(frame, x);
      } else if frame.command == END {
        status, message := HandleEnd(frame, x);
        action := if status == OK then Reset else Continue;
      } else if frame.command == ABORT {
        if frame.payloadLength != 0 {
          status, message := ERR_LENGTH, AbortNotEmpty;
        } else {
          AbandonUpdate();
        }
      } else if frame.command == BOOT {
        if frame.payloadLength != 0 {
          status, message := ERR_LENGTH, BootNotEmpty;
        } else {
          AbandonUpdate();
          action := Boot;
        }
      } else {
        status, message := ERR_COMMAND, UnsupportedCommand;
      }
    }

    /** The end of `process_frame`. */
    method SendOutcome(frame: FrameBuffer, payloadCrc: u32, status: u16, message: Message, ghost action: Action)
      requires Shape() && Foreign(frame) && payloadCrc == Crc32(frame.Value().payload)
      modifies this`hasLastResponse, this`lastResponseLength, this`sent, this`expectedSequence
      modifies this`lastCommand, this`lastSequence, this`lastPayloadCrc
      modifies responseFrame, responseFrame.payload, encodedResponse, lastResponse
      ensures Shape()
      ensures var o := Conclude(env, frame.Value(), Handled(old(State()), status, message), action);
        State() == o.device && sent == old(sent) + [o.sent]
    {
      hide Encode, Reply, Detail, Crc32;
      if status == OK {
        expectedSequence := (expectedSequence + 1) % U16_MODULUS;
        lastCommand, lastSequence, lastPayloadCrc := frame.command, frame.sequence, payloadCrc;
        Respond(frame.command, frame.sequence, status, message, true);
      } else {
        Reject(frame, status, message);
      }
    }

    method ExecuteRequest(frame: FrameBuffer, payloadCrc: u32, x: Faults) returns (action: Action)
      requires Valid() && Foreign(frame) && payloadCrc == Crc32(frame.Value().payload)
      modifies this, flash, responseFrame, responseFrame.payload, encodedResponse, lastResponse, writeBuffer
      modifies expectedDigest
      ensures Valid()
      ensures var o := Executed(env, old(State()), old(frame.Value()), x);
        State() == o.device && sent == old(sent) + [o.sent] && action == o.action
    {
      hide Execute, Crc32, Encode, Layout.WellFormed;
      ExecutedSound(env, State(), frame.Value(), x);
      var status, message;
      status, message, action := Dispatch(frame, x);
      SendOutcome(frame, payloadCrc, status, message, action);
    }

    /** `process_frame`: exactly the state, the bytes and the action of the session function. */
    method ProcessFrame(frame: FrameBuffer, x: Faults) returns (action: Action)
      requires Valid() && Foreign(frame)
      modifies this, flash, responseFrame, responseFrame.payload, encodedResponse, lastResponse, writeBuffer
      modifies expectedDigest
      ensures Valid()
      ensures var o := Process(env, old(State()), old(frame.Value()), x);
        State() == o.device && sent == old(sent) + [o.sent] && action == o.action
    {
      hide SendResponse, Executed, Crc32, Sound, Execute, Conclude;
      ProcessIsExecuted(env, State(), frame.Value(), x);
      var payloadCrc := ComputeCrc32(frame.payload, 0, frame.payloadLength);
      assert frame.payload[0..0 + frame.payloadLength as int] == frame.Value().payload;
      var matches := RequestMatchesLast(frame, payloadCrc);
      if matches {
        sent := sent + [lastResponse[..lastResponseLength]];
        return Continue;
      }
      if frame.version != PROTOCOL_VERSION {
        Reject(frame, ERR_VERSION, UnsupportedVersion);
        return Continue;
      }
      if frame.command == HELLO {
        if frame.sequence != 0 {
          Reject(frame, ERR_SEQUENCE, HelloSequenceNotZero);
          return Continue;
        }
        StartSession();
      } else if frame.sequence != expectedSequence {
        Reject(frame, ERR_SEQUENCE, UnexpectedSequence);
        return Continue;
      }
      action := ExecuteRequest(frame, payloadCrc, x);
    }
  }

  lemma ExecutedSound(env: Env, d: Device, f: Frame, x: Faults)
    requires Sound(env, d)
    ensures Sound(env, Executed(env, d, f, x).device) && Sound(env, Execute(env, d, f, x).0.device)
  {
    hide Execute;
    ExecuteSound(env, d, f, x);
  }

  lemma ProcessIsExecuted(env: Env, d: Device, f: Frame, x: Faults)
    requires Sound(env, d)
    ensures Sound(env, Process(env, d, f, x).device)
    ensures !MatchesLast(d, f) && f.version == PROTOCOL_VERSION && f.command == HELLO && f.sequence == 0 ==>
      Process(env, d, f, x) == Executed(env, d.Abandon().(expected := 0, cache := None), f, x)
    ensures !MatchesLast(d, f) && f.version == PROTOCOL_VERSION && f.command != HELLO && f.sequence == d.expected ==>
      Process(env, d, f, x) == Executed(env, d, f, x)
  {
    hide Execute;
    ProcessSound(env, d, f, x);
  }

  method FillReplyPayload(payload: array<byte>, status: u16, expected: u16, nextOffset: u32, detail: seq<byte>)
    requires |detail| <= MAX_DETAIL && payload.Length == MAX_PAYLOAD
    modifies payload
    ensures payload[..RESPONSE_PREFIX + |detail|] == ReplyPayload(status, expected, nextOffset, detail)
  {
    WriteLe16(payload, 0, status);
    ghost var first := payload[0..2];
    WriteLe16(payload, 2, expected);
    assert payload[0..2] == first;
    ghost var second := payload[2..4];
    WriteLe32(payload, 4, nextOffset);
    assert payload[0..2] == first && payload[2..4] == second;
    ghost var third := payload[4..8];
    payload[8] := |detail|;
    assert payload[0..2] == first && payload[2..4] == second && payload[4..8] == third;
    ghost var prefix := payload[..9];
    assert prefix == payload[0..2] + payload[2..4] + payload[4..8] + [payload[8]];
    forall i | 0 <= i < |detail| {
      payload[RESPONSE_PREFIX + i] := detail[i];
    }
    assert payload[..9] == prefix;
    assert payload[..9 + |detail|] == prefix + payload[9..9 + |detail|];
    assert payload[9..9 + |detail|] == detail;
  }

  lemma ChunkAligned(at: nat, size: nat, block: nat)
    requires at % SECTOR == 0 && size % SECTOR == 0 && block * FLASH_BLOCK < size
    ensures (at + block * FLASH_BLOCK) % SECTOR == 0
    ensures Min(size - block * FLASH_BLOCK, FLASH_BLOCK) % SECTOR == 0
  {
    var a, n := at / SECTOR, size / SECTOR;
    assert at + block * FLASH_BLOCK == SECTOR * (a + 16 * block);
    assert size - block * FLASH_BLOCK == SECTOR * (n - 16 * block);
  }

  lemma EraseExtends(cells: seq<byte>, at: nat, a: nat, b: nat)
    ensures Erase(Erase(cells, at, a), at + a, b) == Erase(cells, at, a + b)
  {
  }

  lemma EraseNothing(cells: seq<byte>, at: nat)
    ensures Erase(cells, at, 0) == cells
  {
  }

  lemma EntryAligned(l: Layout, index: nat)
    requires l.otaInfo % SECTOR == 0 && index < 2
    ensures EntryAddress(l, index) % SECTOR == 0 && EntryAddress(l, index) % 4 == 0
  {
    SectorPlusWord(l.otaInfo, index * SECTOR);
  }

  lemma WriteUpdateWrites(env: Env, d: Device, f: Frame, x: Faults)
    requires Sound(env, d) && d.active && |f.payload| > OFFSET_SIZE && ReadLe32(f.payload, 0) == d.nextOffset
    requires d.nextOffset + |f.payload| - OFFSET_SIZE <= d.imageSize
    requires d.nextOffset + |f.payload| - OFFSET_SIZE == d.imageSize || (|f.payload| - OFFSET_SIZE) % 4 == 0
    ensures var at := TargetSlot(env, d).offset + d.nextOffset; var data := f.payload[OFFSET_SIZE..];
      WriteUpdate(env, d, f, x) == if x.write.Some?
        then Handled(d.(cells := Damage(d.cells, at, Words(|data|), x.write.value)), ERR_FLASH, WriteFailed)
        else Handled(d.(cells := Program(d.cells, at, Padded(data)), nextOffset := d.nextOffset + |data|), OK, NoText)
  {
  }

  /** A DATA write the session accepts is word-aligned and stays inside the target. */
  lemma TargetFits(env: Env, d: Device, length: nat)
    requires Sound(env, d) && d.active && 0 < length && d.nextOffset + length <= d.imageSize
    ensures (TargetSlot(env, d).offset + d.nextOffset) % 4 == 0
    ensures TargetSlot(env, d).offset + d.nextOffset + Words(length) <= |d.cells| <= U32_MAX + 1
  {
    hide Words;
    WriteFits(d.nextOffset, length, d.imageSize, TargetSlot(env, d).size);
    SectorPlusWord(TargetSlot(env, d).offset, d.nextOffset);
  }

  lemma SectorPlusWord(a: nat, b: nat)
    requires a % SECTOR == 0 && b % 4 == 0
    ensures (a + b) % 4 == 0
  {
    var p, q := a / SECTOR, b / 4;
    assert a == 4 * (0x400 * p) && b == 4 * q;
    assert a + b == 4 * (0x400 * p + q);
  }

  lemma WriteFits(offset: nat, length: nat, imageSize: nat, size: nat)
    requires offset % 4 == 0 || offset == imageSize
    requires offset + length <= imageSize && length > 0 && Sectors(imageSize) <= size
    ensures offset % 4 == 0 && offset + Words(length) <= size
  {
    WordsAfterAligned(offset, length);
    SectorsAreWords(imageSize);
    WordsLeast(offset + length, Sectors(imageSize));
  }
}
