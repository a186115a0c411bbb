/** The application's update service as the C code keeps it, over an object that stands for the OTA calls. */
module IapService {
  import opened Bytes
  import opened Crc
  import opened Frames
  import opened FrameBuffers
  import opened Flash
  import opened Device
  import opened Bootloader
  import opened AppService

  /** The `esp_ota_*` calls: each outcome is decided by the environment, each call is recorded. */
  class OtaApi {
    var calls: seq<OtaCall>
    var cells: seq<byte>

    constructor (contents: seq<byte>)
      ensures calls == [] && cells == contents
    {
      calls, cells := [], contents;
    }

    /** The erased range is the image size rounded up to whole sectors. */
    method Begin(size: nat, fails: bool) returns (ok: bool, handle: nat)
      modifies this
      ensures ok == !fails
      ensures ok ==> handle == Begun(old(calls)) + 1 && calls == old(calls) + [OtaBegin(handle)]
      ensures ok ==> cells == Erase(old(cells), 0, Sectors(size))
      ensures !ok ==> handle == 0 && calls == old(calls) && cells == old(cells)
    {
      if fails {
        return false, 0;
      }
      handle := Begun(calls) + 1;
      calls, cells := calls + [OtaBegin(handle)], Erase(cells, 0, Sectors(size));
      return true, handle;
    }

    /** The data are programmed where the last write through the handle ended. */
    method Write(handle: nat, at: nat, data: seq<byte>, failure: Option<seq<byte>>) returns (ok: bool)
      requires at + |data| <= |cells|
      modifies this
      ensures ok == failure.None? && calls == old(calls) + [OtaWrite(handle, data)]
      ensures cells == if ok then Program(old(cells), at, data) else Damage(old(cells), at, |data|, failure.value)
    {
      ok := failure.None?;
      calls := calls + [OtaWrite(handle, data)];
      cells := if ok then Program(cells, at, data) else Damage(cells, at, |data|, failure.value);
    }

    method End(handle: nat, fails: bool) returns (ok: bool)
      modifies this`calls
      ensures ok == !fails && calls == old(calls) + [OtaEnd(handle, ok)]
    {
      ok := !fails;
      calls := calls + [OtaEnd(handle, ok)];
    }

    method Abort(handle: nat)
      modifies this`calls
      ensures calls == old(calls) + [OtaAbort(handle)]
    {
      calls := calls + [OtaAbort(handle)];
    }

    method SetBoot(fails: bool) returns (ok: bool)
      modifies this`calls
      ensures ok == !fails && calls == old(calls) + (if ok then [OtaSetBoot] else [])
    {
      ok := !fails;
      if ok {
        calls := calls + [OtaSetBoot];
      }
    }
  }

  datatype Answer = Answer(bytes: seq<byte>, delivered: bool)

  class Service {
    const env: AppEnv
    const ota: OtaApi
    const expectedDigest: array<byte>
    const lastResponse: array<byte>
    var updateState: UpdateState
    var otaHandle: nat
    var imageSize: u32
    var nextOffset: u32
    var expectedSequence: u16
    var sessionActive: bool
    var hasLastResponse: bool
    var lastCommand: byte
    var lastSequence: u16
    var lastPayloadCrc: u32
    var lastResponseLength: nat
    /** What was handed to the UART driver, and whether it left the device. */
    var answers: seq<Answer>

    constructor (env: AppEnv, ota: OtaApi)
      requires env.target.Some? ==> env.target.value == |ota.cells|
      ensures this.env == env && this.ota == ota && Valid() && fresh(expectedDigest) && fresh(lastResponse)
      ensures answers == []
      ensures State()
        == App(ota.calls, ota.cells, Idle, 0, 0, 0, seq(DIGEST_SIZE, _ => 0), 0, false, Key(0, 0, 0), None)
    {
      this.env, this.ota := env, ota;
      expectedDigest, lastResponse := new byte[DIGEST_SIZE](_ => 0), new byte[MAX_FRAME];
      updateState, otaHandle, imageSize, nextOffset := Idle, 0, 0, 0;
      expectedSequence, sessionActive, hasLastResponse := 0, false, false;
      lastCommand, lastSequence, lastPayloadCrc, lastResponseLength, answers := 0, 0, 0, 0, [];
    }

    ghost predicate Shape()
      reads this
    {
      && expectedDigest.Length == DIGEST_SIZE && lastResponse.Length == MAX_FRAME && lastResponseLength <= MAX_FRAME
      && expectedDigest != lastResponse
    }

    ghost function State(): App
      requires lastResponseLength <= lastResponse.Length
      reads this, ota, expectedDigest, lastResponse
    {
      App(ota.calls, ota.cells, updateState, otaHandle, imageSize, nextOffset, expectedDigest[..], expectedSequence,
          sessionActive, Key(lastCommand, lastSequence, lastPayloadCrc),
          if hasLastResponse then Some(lastResponse[..lastResponseLength]) else None)
    }

    ghost predicate Valid()
      reads this, ota, expectedDigest, lastResponse
    {
      Shape() && AppSound(env, State())
    }

    ghost predicate Foreign(frame: FrameBuffer)
      reads frame
    {
      frame.Valid() && frame.payload != expectedDigest && frame.payload != lastResponse
    }

    /** `abort_update`. */
    method AbortUpdate()
      requires Shape()
      modifies this`updateState, this`otaHandle, this`imageSize, this`nextOffset, expectedDigest, ota`calls
      ensures Shape() && State() == AppAbort(old(State()))
    {
      if updateState == Receiving {
        ota.Abort(otaHandle);
      }
      updateState, otaHandle, imageSize, nextOffset := Idle, 0, 0, 0;
      forall i | 0 <= i < expectedDigest.Length {
        expectedDigest[i] := 0;
      }
      assert expectedDigest[..] == AppAbort(old(State())).digest;
      assert lastResponse[..] == old(lastResponse[..]);
    }

    /** `begin_update`. */
    method HandleBegin(frame: FrameBuffer, x: AppFaults) returns (status: u16, notice: Notice)
      requires Valid() && Foreign(frame)
      modifies this`updateState, this`otaHandle, this`imageSize, this`nextOffset, expectedDigest, ota
      ensures Shape()
      ensures AppBegin(env, old(State()), old(frame.Value()), x) == AppHandled(State(), status, notice)
    {
      hide ReadLe32, AppAbort;
      if frame.payloadLength < BEGIN_PREFIX {
        return ERR_LENGTH, BeginShort;
      }
      var size := ReadFirstLe32(frame);
      var versionLength := frame.payload[36];
      if size == 0 || versionLength > MAX_VERSION || frame.payloadLength != BEGIN_PREFIX + versionLength {
        return ERR_LENGTH, BadBegin;
      }
      if updateState == Receiving {
        AbortUpdate();
      }
      if env.target.None? || size > env.target.value {
        return ERR_LENGTH, NoPartition;
      }
      var ok, handle := ota.Begin(size, x.begin);
      if !ok {
        return ERR_FLASH, OtaBeginFailed;
      }
      StartReceiving(frame, handle, size);
      return OK, Quiet;
    }

    method StartReceiving(frame: FrameBuffer, handle: nat, size: u32)
      requires Shape() && Foreign(frame) && frame.payloadLength >= BEGIN_PREFIX
      modifies this`updateState, this`otaHandle, this`imageSize, this`nextOffset, expectedDigest
      ensures Shape() && State() == old(State()).(
        state := Receiving, handle := handle, imageSize := size, nextOffset := 0,
        digest := frame.Value().payload[4..36])
    {
      updateState, otaHandle, imageSize, nextOffset := Receiving, handle, size, 0;
      ghost var payload := frame.Value().payload;
      forall i | 0 <= i < DIGEST_SIZE {
        expectedDigest[i] := frame.payload[4 + i];
      }
      assert forall i :: 0 <= i < DIGEST_SIZE ==> payload[4..36][i] == payload[4 + i] == frame.payload[4 + i];
      assert expectedDigest[..] == payload[4..36];
      assert lastResponse[..] == old(lastResponse[..]);
    }

    /** `write_update`. */
    method HandleData(frame: FrameBuffer, x: AppFaults) returns (status: u16, notice: Notice)
      requires Valid() && Foreign(frame)
      modifies this`nextOffset, ota
      ensures Shape()
      ensures AppWrite(env, old(State()), old(frame.Value()), x) == AppHandled(State(), status, notice)
    {
      hide ReadLe32, Program, Damage;
      if updateState != Receiving {
        return ERR_STATE, NotReceiving;
      }
      if frame.payloadLength <= OFFSET_SIZE {
        return ERR_LENGTH, EmptyData;
      }
      var offset := ReadFirstLe32(frame);
      var dataLength := frame.payloadLength - OFFSET_SIZE;
      if offset != nextOffset {
        return ERR_OFFSET, WrongOffset;
      }
      if dataLength > imageSize - nextOffset {
        return ERR_LENGTH, TooMuchData;
      }
      assert frame.payload[OFFSET_SIZE..frame.payloadLength] == frame.Value().payload[OFFSET_SIZE..];
      var ok := ota.Write(otaHandle, nextOffset, frame.payload[OFFSET_SIZE..frame.payloadLength], x.write);
      if !ok {
        return ERR_FLASH, OtaWriteFailed;
      }
      nextOffset := nextOffset + dataLength;
      return OK, Quiet;
    }

    /** `calculate_written_sha256`: piece by piece, everything up to the image size is read exactly once. */
    method ReadBack(failure: Option<nat>) returns (ok: bool, contents: seq<byte>)
      requires imageSize <= |ota.cells|
      ensures ok <==> failure.None? || failure.value * READ_PIECE >= imageSize
      ensures ok ==> contents == ota.cells[..imageSize]
    {
      contents := [];
      var offset, piece := 0, 0;
      while offset < imageSize
        invariant offset == Min(piece * READ_PIECE, imageSize) && contents == ota.cells[..offset]
        invariant failure.Some? && failure.value < piece ==> failure.value * READ_PIECE >= imageSize
      {
        var length := Min(imageSize - offset, READ_PIECE);
        if failure == Some(piece) {
          return false, contents;
        }
        contents := contents + ota.cells[offset..offset + length];
        offset, piece := offset + length, piece + 1;
      }
      return true, contents;
    }

    /** `finish_update`. */
    method HandleEnd(frame: FrameBuffer, x: AppFaults) returns (status: u16, notice: Notice)
      requires Valid() && Foreign(frame)
      modifies this`updateState, this`otaHandle, this`nextOffset, ota`calls
      ensures Shape()
      ensures AppFinish(env, old(State()), old(frame.Value()), x) == AppHandled(State(), status, notice)
    {
      if frame.payloadLength != 0 {
        return ERR_LENGTH, EndHasPayload;
      }
      assert frame.Value().payload == [];
      if updateState != Receiving {
        return ERR_STATE, NoUpdateOpen;
      }
      if nextOffset != imageSize {
        return ERR_LENGTH, IncompleteImage;
      }
      var handle := otaHandle;
      otaHandle := 0;
      var ended := ota.End(handle, x.end);
      if !ended {
        updateState, nextOffset := Idle, 0;
        return ERR_IMAGE, ImageRejected;
      }
      var readBack, contents := ReadBack(x.readBack);
      if !readBack {
        updateState, nextOffset := Idle, 0;
        return ERR_FLASH, ReadBackFailed;
      }
      if env.sha256(contents) != expectedDigest[..] {
        updateState, nextOffset := Idle, 0;
        return ERR_HASH, WrongHash;
      }
      var committed := ota.SetBoot(x.setBoot);
      if !committed {
        updateState, nextOffset := Idle, 0;
        return ERR_FLASH, SetBootFailed;
      }
      updateState := Finished;
      return OK, Quiet;
    }

    /** `send_encoded`: an error is reported also when only the wait for the last byte timed out. */
    method SendEncoded(bytes: seq<byte>, x: AppFaults) returns (ok: bool)
      modifies this`answers
      ensures ok == (x.send == Confirmed) && (ok ==> x.Delivers())
      ensures answers == old(answers) + [Answer(bytes, x.Delivers())]
    {
      answers := answers + [Answer(bytes, x.Delivers())];
      ok := x.send == Confirmed;
    }

    /** `send_response`: the reply is cached only if it was reported as sent. */
    method Respond(command: byte, sequence: u16, status: u16, notice: Notice, cacheResponse: bool, x: AppFaults)
      returns (sent: bool)
      requires Shape()
      modifies this`hasLastResponse, this`lastResponseLength, this`answers, lastResponse
      ensures Shape() && sent == (x.send == Confirmed)
      ensures var detail := AppDetail(env, notice);
        var bytes := Encode(Reply(command, sequence, status, expectedSequence, nextOffset, detail));
        && answers == old(answers) + [Answer(bytes, x.Delivers())]
        && (cacheResponse && sent ==> hasLastResponse && lastResponse[..lastResponseLength] == bytes)
      ensures !(cacheResponse && sent) ==>
        hasLastResponse == old(hasLastResponse) && lastResponse[..] == old(lastResponse[..])
        && lastResponseLength == old(lastResponseLength)
    {
      hide Header, Crc32, Crc16, Reply, AppDetail, Encode;
      var encoded, encodedLength := BuildResponse(command, sequence, status, notice);
      sent := SendEncoded(encoded[..encodedLength], x);
      if sent && cacheResponse {
        forall i | 0 <= i < encodedLength {
          lastResponse[i] := encoded[i];
        }
        lastResponseLength := encodedLength;
        hasLastResponse := true;
        assert lastResponse[..lastResponseLength] == encoded[..encodedLength];
      }
    }

    method BuildResponse(command: byte, sequence: u16, status: u16, notice: Notice)
      returns (encoded: array<byte>, encodedLength: nat)
      requires Shape()
      ensures fresh(encoded) && encodedLength <= encoded.Length == MAX_FRAME
      ensures encoded[..encodedLength]
        == Encode(Reply(command, sequence, status, expectedSequence, nextOffset, AppDetail(env, notice)))
    {
      hide Header, Crc32, Crc16, AppDetail;
      var detail := AppDetail(env, notice);
      var response := new FrameBuffer();
      encoded := new byte[MAX_FRAME];
      response.version, response.command, response.sequence := PROTOCOL_VERSION, ResponseCommand(command), sequence;
      FillReplyPayload(response.payload, status, expectedSequence, nextOffset, detail);
      response.payloadLength := RESPONSE_PREFIX + |detail|;
      assert response.Value() == Reply(command, sequence, status, expectedSequence, nextOffset, detail);
      var ok;
      ok, encodedLength := EncodeInto(response, encoded);
    }

    /** The command switch of `process_frame`. */
    method Dispatch(frame: FrameBuffer, x: AppFaults) returns (status: u16, notice: Notice, restart: bool)
      requires Valid() && Foreign(frame)
      modifies this`updateState, this`otaHandle, this`imageSize, this`nextOffset, expectedDigest, ota
      ensures Valid()
      ensures AppExecute(env, old(State()), old(frame.Value()), x) == (AppHandled(State(), status, notice), restart)
    {
      ghost var a, f := State(), frame.Value();
      AppExecuteSound(env, a, f, x);
      assert f.payload == [] <==> frame.payloadLength == 0;
      status, notice, restart := OK, Quiet, false;
      if frame.command == HELLO {
        notice := Greeting;
      } else if frame.command == INFO {
        notice := Description;
      } else if frame.command == BEGIN {
        status, notice := HandleBegin(frame, x);
      } else if frame.command == DATA {
        status, notice := HandleData(frame, x);
      } else if frame.command == END {
        status, notice := HandleEnd(frame, x);
        restart := status == OK;
      } else if frame.command == ABORT {
        if frame.payloadLength != 0 {
          status, notice := ERR_LENGTH, AbortHasPayload;
        } else {
          AbortUpdate();
        }
      } else if frame.command == BOOT {
        if frame.payloadLength != 0 {
          status, notice := ERR_LENGTH, BootHasPayload;
        } else {
          AbortUpdate();
          restart := true;
        }
      } else {
        status, notice := ERR_COMMAND, UnknownCommand;
      }
    }

    method RejectFrame(frame: FrameBuffer, status: u16, notice: Notice, x: AppFaults)
      requires Shape() && Foreign(frame)
      modifies this`hasLastResponse, this`lastResponseLength, this`answers, lastResponse
      ensures Shape() && State() == old(State())
      ensures answers
        == old(answers) + [Answer(Encode(AppReply(env, old(State()), frame.Value(), status, notice)), x.Delivers())]
    {
      hide Encode, Reply, AppDetail;
      var sent := Respond(frame.command, frame.sequence, status, notice, false, x);
      assert lastResponse[..lastResponseLength] == lastResponse[..][..lastResponseLength];
    }

    /** The end of `process_frame`. */
    method SendOutcome(frame: FrameBuffer, payloadCrc: u32, status: u16, notice: Notice, restart: bool, x: AppFaults)
      returns (restarts: bool)
      requires Shape() && Foreign(frame) && payloadCrc == Crc32(frame.Value().payload)
      modifies this`hasLastResponse, this`lastResponseLength, this`answers, this`expectedSequence
      modifies this`lastCommand, this`lastSequence, this`lastPayloadCrc, lastResponse
      requires restart ==> status == OK
      ensures Shape()
      ensures var o := AppConclude(env, frame.Value(), AppHandled(old(State()), status, notice), restart, x);
        State() == o.app && answers == old(answers) + [Answer(o.answer, o.delivered)] && restarts == o.restart
    {
      hide Encode, Reply, AppDetail, Crc32;
      if status == OK {
        expectedSequence := (expectedSequence + 1) % U16_MODULUS;
        lastCommand, lastSequence, lastPayloadCrc := frame.command, frame.sequence, payloadCrc;
        var sent := Respond(frame.command, frame.sequence, status, notice, true, x);
        assert !sent ==> lastResponse[..lastResponseLength] == lastResponse[..][..lastResponseLength];
        restarts := restart && sent;
      } else {
        RejectFrame(frame, status, notice, x);
        restarts := false;
      }
    }

    /** `request_matches_last`. */
    method RequestMatchesLast(frame: FrameBuffer, payloadCrc: u32) returns (matches: bool)
      requires Shape() && Foreign(frame) && payloadCrc == Crc32(frame.Value().payload)
      ensures matches == AppMatchesLast(State(), frame.Value())
    {
      matches := hasLastResponse && frame.sequence == lastSequence && frame.command == lastCommand
        && payloadCrc == lastPayloadCrc;
    }

    /** A HELLO with sequence zero starts over. */
    method StartSession()
      requires Valid()
      modifies this`updateState, this`otaHandle, this`imageSize, this`nextOffset, expectedDigest, ota`calls
      modifies this`expectedSequence, this`sessionActive, this`hasLastResponse
      ensures Valid() && State() == AppAbort(old(State())).(expected := 0, session := true, reply := None)
    {
      AbortUpdate();
      expectedSequence, sessionActive, hasLastResponse := 0, true, false;
    }

    /** The end of a silent session, in `iap_service_task`. */
    method EndSession()
      requires Valid() && sessionActive
      modifies this`updateState, this`otaHandle, this`imageSize, this`nextOffset, expectedDigest, ota`calls
      modifies this`expectedSequence, this`sessionActive, this`hasLastResponse
      ensures Valid() && State() == AppTimeout(old(State()))
    {
      AbortUpdate();
      expectedSequence, sessionActive, hasLastResponse := 0, false, false;
    }

    method ExecuteRequest(frame: FrameBuffer, payloadCrc: u32, x: AppFaults) returns (restarts: bool)
      requires Valid() && Foreign(frame) && payloadCrc == Crc32(frame.Value().payload)
      modifies this, ota, expectedDigest, lastResponse
      ensures Valid()
      ensures var o := AppExecuted(env, old(State()), old(frame.Value()), x);
        State() == o.app && answers == old(answers) + [Answer(o.answer, o.delivered)] && restarts == o.restart
    {
      hide AppExecute, AppConclude, Crc32, Encode;
      AppExecutedSound(env, State(), frame.Value(), x);
      var status, notice, restart;
      status, notice, restart := Dispatch(frame, x);
      restarts := SendOutcome(frame, payloadCrc, status, notice, restart, x);
    }

    /** `process_frame`: exactly the state, the bytes and the restart of the service function. */
    method ProcessFrame(frame: FrameBuffer, x: AppFaults) returns (restarts: bool)
      requires Valid() && Foreign(frame)
      modifies this, ota, expectedDigest, lastResponse
      ensures Valid()
      ensures var o := AppProcess(env, old(State()), old(frame.Value()), x);
        State() == o.app && answers == old(answers) + [Answer(o.answer, o.delivered)] && restarts == o.restart
    {
      hide AppExecuted, Crc32, AppExecute, AppConclude, AppAbort, Encode, AppReply, Reply;
      AppProcessIsExecuted(env, State(), frame.Value(), x);
      var payloadCrc := ComputeCrc32(frame.payload, 0, frame.payloadLength);
      assert frame.payload[0..0 + frame.payloadLength as int] == frame.Value().payload;
      var matches := RequestMatchesLast(frame, payloadCrc);
      if matches {
        var _ := SendEncoded(lastResponse[..lastResponseLength], x);
        return false;
      }
      if frame.version != PROTOCOL_VERSION {
        RejectFrame(frame, ERR_VERSION, WrongVersion, x);
        return false;
      }
      if frame.command == HELLO && frame.sequence == 0 {
        StartSession();
      } else if !sessionActive {
        RejectFrame(frame, ERR_STATE, HelloFirst, x);
        return false;
      } else if frame.sequence != expectedSequence {
        RejectFrame(frame, ERR_SEQUENCE, WrongSequence, x);
        return false;
      }
      restarts := ExecuteRequest(frame, payloadCrc, x);
    }
  }

  lemma AppExecutedSound(env: AppEnv, a: App, f: Frame, x: AppFaults)
    requires AppSound(env, a)
    ensures AppSound(env, AppExecuted(env, a, f, x).app) && AppSound(env, AppExecute(env, a, f, x).0.app)
    ensures AppExecute(env, a, f, x).1 ==> AppExecute(env, a, f, x).0.status == OK
  {
    AppExecuteSound(env, a, f, x);
  }

  predicate IsAdmitted(a: App, f: Frame) {
    (f.command == HELLO && f.sequence == 0) || (a.session && f.sequence == a.expected)
  }

  lemma AppProcessIsExecuted(env: AppEnv, a: App, f: Frame, x: AppFaults)
    requires AppSound(env, a)
    ensures AppSound(env, AppProcess(env, a, f, x).app) && AppSound(env, Admitted(a, f))
    ensures !AppMatchesLast(a, f) && f.version == PROTOCOL_VERSION && IsAdmitted(a, f) ==>
      AppProcess(env, a, f, x) == AppExecuted(env, Admitted(a, f), f, x)
  {
    hide AppExecute, AppConclude;
    AppProcessSound(env, a, f, x);
  }
}
